/** What parsing and merging keep, and the laws that follow: the exact round trip, the
    concatenation law and canonicalisation. */
module Stability {
  import opened Wire
  import opened WireLaws
  import opened Codec
  import opened MergeLaws
  import opened Parsing
  import opened RoundTrip

  /** The invariant of every message that was only ever parsed, merged, copied and cleared. */
  ghost predicate Good(s: Schema, m: Msg, budget: nat)
    requires Conforms(s, m)
  {
    Clean(s, m) && Readable(s, m, budget)
  }

  lemma {:induction false} EmptyIsGood(s: Schema, budget: nat)
    ensures Good(s, Empty(s), budget)
  {
    assert FieldsReadable(s, Empty(s), budget);
  }

  /** Going from `m` to `w` loses neither the dispatch invariant nor readability. */
  ghost predicate Keeps(s: Schema, m: Msg, w: Msg, budget: nat)
    requires Conforms(s, m) && Conforms(s, w)
  {
    && (Clean(s, m) ==> Clean(s, w))
    && (Readable(s, m, budget) ==> Readable(s, w, budget))
  }

  ghost predicate KeepsValue(t: FieldType, v: Value, w: Value, budget: nat)
    requires ValueConforms(t, v) && ValueConforms(t, w)
  {
    && (ValueClean(t, v) ==> ValueClean(t, w))
    && (ValueReadable(t, v, budget) ==> ValueReadable(t, w, budget))
  }

  lemma {:induction false} ApplySubKeeps(f: Field, v: Value, r: Record, budget: nat)
    requires f.typ.Sub? && ValueConforms(f.typ, v) && Matches(f, r)
    ensures var w := ApplyField(f, v, r, budget); w.Some? ==> KeepsValue(f.typ, v, w.value, budget)
    decreases f, 0, 0
  {
    hide Parse, Clean, Readable, Empty;
    var sub := f.typ.schema;
    if budget > 0 {
      EmptyIsGood(sub, budget - 1);
      ParseKeeps(sub, OrEmpty(sub, v.m), r.data, budget - 1);
    }
  }

  lemma {:induction false} ApplyRepSubKeeps(f: Field, v: Value, r: Record, budget: nat)
    requires f.typ.RepSub? && ValueConforms(f.typ, v) && Matches(f, r)
    ensures var w := ApplyField(f, v, r, budget); w.Some? ==> KeepsValue(f.typ, v, w.value, budget)
    decreases f, 0, 0
  {
    hide Parse, Clean, Readable, Empty;
    var sub := f.typ.schema;
    if budget > 0 {
      EmptyIsGood(sub, budget - 1);
      ParseKeeps(sub, Empty(sub), r.data, budget - 1);
      var m := Parse(sub, Empty(sub), r.data, budget - 1);
      if m.Some? {
        AllReadableConcat(sub, v.ms, [m.value], budget);
      }
    }
  }

  lemma {:induction false} ApplyFieldKeeps(f: Field, v: Value, r: Record, budget: nat)
    requires ValueConforms(f.typ, v) && Matches(f, r)
    ensures var w := ApplyField(f, v, r, budget); w.Some? ==> KeepsValue(f.typ, v, w.value, budget)
    decreases f, 0
  {
    if f.typ.Sub? {
      ApplySubKeeps(f, v, r, budget);
    } else if f.typ.RepSub? {
      ApplyRepSubKeeps(f, v, r, budget);
    }
  }

  lemma {:induction false} ApplyKeeps(s: Schema, m: Msg, r: Record, budget: nat)
    requires Conforms(s, m) && Shallow(r, budget)
    ensures var w := Apply(s, m, r, budget); w.Some? ==> Keeps(s, m, w.value, budget)
    decreases s, 0
  {
    var k := Dispatch(s, r);
    if k < |s.fields| {
      ApplyFieldKeeps(s.fields[k], m.vals[k], r, budget);
    }
    var w := Apply(s, m, r, budget);
    assert w.Some? && FieldsReadable(s, m, budget) ==> FieldsReadable(s, w.value, budget);
  }

  lemma {:induction false} FoldKeeps(s: Schema, m: Msg, rs: seq<Record>, budget: nat)
    requires Conforms(s, m) && AllShallow(rs, budget)
    ensures var w := Fold(s, m, rs, budget); w.Some? ==> Keeps(s, m, w.value, budget)
    decreases s, 1, |rs|
  {
    if rs != [] {
      AllShallowSplits(rs, budget);
      ApplyKeeps(s, m, rs[0], budget);
      var w := Apply(s, m, rs[0], budget);
      if w.Some? {
        FoldKeeps(s, w.value, rs[1..], budget);
      }
    }
  }

  /** Parsing any bytes at all keeps the dispatch invariant (a record of a known number with the
      wrong wire type is unknown, a known one never is), and, independently of it, UTF-8 validity
      together with the nesting bound. */
  lemma {:induction false} ParseKeeps(s: Schema, m: Msg, bs: bytes, budget: nat)
    requires Conforms(s, m)
    ensures var w := Parse(s, m, bs, budget); w.Some? ==> Keeps(s, m, w.value, budget)
    decreases s, 2
  {
    MergePartialIsFold(s, m, bs, budget);
    if Lex(bs, budget).Some? {
      LexIsShallow(bs, budget);
      FoldKeeps(s, m, Lex(bs, budget).value, budget);
    }
  }

  lemma {:induction false} MergeValueKeeps(t: FieldType, x: Value, y: Value, budget: nat)
    requires ValueConforms(t, x) && ValueConforms(t, y)
    ensures ValueClean(t, x) && ValueClean(t, y) ==> ValueClean(t, MergeValue(t, x, y))
    ensures ValueReadable(t, x, budget) && ValueReadable(t, y, budget) ==>
              ValueReadable(t, MergeValue(t, x, y), budget)
    decreases t, 0
  {
    match t
    case Sub(sub) =>
      if y.m.Some? {
        if budget > 0 {
          EmptyIsGood(sub, budget - 1);
        }
        EmptyIsGood(sub, 0);
        MergeKeeps(sub, OrEmpty(sub, x.m), y.m.value, if budget > 0 then budget - 1 else 0);
      }
    case RepSub(sub) =>
      AllReadableConcat(sub, x.ms, y.ms, budget);
      assert forall i :: 0 <= i < |x.ms + y.ms| ==>
               (x.ms + y.ms)[i] == if i < |x.ms| then x.ms[i] else y.ms[i - |x.ms|];
    case RepStr =>
      assert forall i :: 0 <= i < |x.bs + y.bs| ==>
               (x.bs + y.bs)[i] == if i < |x.bs| then x.bs[i] else y.bs[i - |x.bs|];
    case _ =>
  }

  lemma {:induction false} MergeKeeps(s: Schema, x: Msg, y: Msg, budget: nat)
    requires Conforms(s, x) && Conforms(s, y)
    ensures Clean(s, x) && Clean(s, y) ==> Clean(s, Merge(s, x, y))
    ensures Readable(s, x, budget) && Readable(s, y, budget) ==> Readable(s, Merge(s, x, y), budget)
    decreases s, 1
  {
    var r := Merge(s, x, y);
    forall i | 0 <= i < |s.fields|
      ensures ValueClean(s.fields[i].typ, x.vals[i]) && ValueClean(s.fields[i].typ, y.vals[i]) ==>
                ValueClean(s.fields[i].typ, r.vals[i])
      ensures ValueReadable(s.fields[i].typ, x.vals[i], budget) && ValueReadable(s.fields[i].typ, y.vals[i], budget) ==>
                ValueReadable(s.fields[i].typ, r.vals[i], budget)
    {
      MergeValueKeeps(s.fields[i].typ, x.vals[i], y.vals[i], budget);
    }
    AllShallowConcat(x.unk, y.unk, budget);
    assert FieldsReadable(s, x, budget) && FieldsReadable(s, y, budget) ==> FieldsReadable(s, r, budget);
  }

  // ---------------------------------------------------------------- concatenation

  /** Parsing serialize(x) ++ serialize(y) onto any message merges x and then y into it; it fails
      exactly when one of the two could not be read back by itself. */
  lemma {:induction false} ConcatenationIsMerge(s: Schema, z: Msg, x: Msg, y: Msg, budget: nat)
    requires WellFormed(s) && Conforms(s, z) && Conforms(s, x) && Conforms(s, y)
    requires Clean(s, x) && Clean(s, y)
    requires |Serialize(s, x)| + |Serialize(s, y)| < TWO_TO_THE_31
    ensures Parse(s, z, Serialize(s, x) + Serialize(s, y), budget)
         == if Readable(s, x, budget) && Readable(s, y, budget)
            then Some(Merge(s, Merge(s, z, x), y)) else None
  {
    var a, b := Serialize(s, x), Serialize(s, y);
    SerializeThenParse(s, z, x, budget);
    if Readable(s, x, budget) {
      ParseConcat(s, z, a, b, budget);
      SerializeThenParse(s, Merge(s, z, x), y, budget);
    } else {
      var rx, ry := KnownRecords(s, x, 0) + x.unk, KnownRecords(s, y, 0) + y.unk;
      EmitAllConcat(rx, ry);
      LexRoundTrip(rx, budget);
      LexRoundTrip(rx + ry, budget);
      AllShallowConcat(rx, ry, budget);
      if Lex(a, budget).Some? {
        ParseFirst(s, z, a, b, budget);
      } else {
        MergePartialIsFold(s, z, a + b, budget);
      }
    }
  }

  // ---------------------------------------------------------------- the exact round trip

  lemma {:induction false} SelectAll(s: Schema, k: nat, rs: seq<Record>)
    requires |Select(s, k, rs)| == |rs|
    ensures forall j :: 0 <= j < |rs| ==> Dispatch(s, rs[j]) == k
  {
    if rs != [] {
      SelectAll(s, k, rs[1..]);
    }
  }

  /** When a repeated field is read back as it was, so are its first element and the others. */
  lemma {:induction false} FirstReadBack(f: Field, v: Value, ms: seq<Msg>, budget: nat)
    requires f.typ.RepSub? && ms != []
    requires ValueConforms(f.typ, v) && ValueConforms(f.typ, Msgs(ms))
    requires AllMatch(f, MsgRecords(f.num, f.typ.schema, ms))
    requires FieldFold(f, v, MsgRecords(f.num, f.typ.schema, ms), budget) == Some(Msgs(v.ms + ms))
    ensures budget > 0 && Conforms(f.typ.schema, ms[0])
    ensures ValueConforms(f.typ, Msgs(v.ms + [ms[0]])) && ValueConforms(f.typ, Msgs(ms[1..]))
    ensures Parse(f.typ.schema, Empty(f.typ.schema), Serialize(f.typ.schema, ms[0]), budget - 1) == Some(ms[0])
    ensures AllMatch(f, MsgRecords(f.num, f.typ.schema, ms[1..]))
    ensures FieldFold(f, Msgs(v.ms + [ms[0]]), MsgRecords(f.num, f.typ.schema, ms[1..]), budget)
         == Some(Msgs(v.ms + [ms[0]] + ms[1..]))
  {
    hide Parse, Serialize, Empty, Conforms;
    var sub := f.typ.schema;
    var rest := MsgRecords(f.num, sub, ms[1..]);
    var rs := [Len(f.num, Serialize(sub, ms[0]))] + rest;
    assert MsgRecords(f.num, sub, ms) == rs && rs[1..] == rest;
    var got := Parse(sub, Empty(sub), rs[0].data, budget - 1).value;
    var v1 := Msgs(v.ms + [got]);
    MsgRecordsMatch(f, ms[1..]);
    FieldFoldIsMeaning(f, v1, rest, budget);
    var all := v.ms + ms;
    var last := Meaning(f, v1, rest, budget).value;
    assert last == Msgs(all) && all[|v.ms|] == ms[0] && last.ms[|v.ms|] == got;
    assert v.ms + [ms[0]] + ms[1..] == all;
  }

  lemma {:induction false} CleanFirst(t: FieldType, ms: seq<Msg>)
    requires t.RepSub? && ms != [] && ValueConforms(t, Msgs(ms))
    requires Conforms(t.schema, ms[0]) && ValueConforms(t, Msgs(ms[1..]))
    ensures Clean(t.schema, ms[0]) && ValueClean(t, Msgs(ms[1..])) ==> ValueClean(t, Msgs(ms))
  {
    hide Clean, Conforms;
    assert forall i :: 1 <= i < |ms| ==> ms[i] == ms[1..][i - 1];
  }

  lemma {:induction false} MsgsOnlyIfClean(f: Field, v: Value, ms: seq<Msg>, budget: nat)
    requires f.typ.RepSub? && WellFormedType(f.typ)
    requires ValueConforms(f.typ, v) && ValueConforms(f.typ, Msgs(ms))
    requires |EmitAll(MsgRecords(f.num, f.typ.schema, ms))| < TWO_TO_THE_31
    requires AllMatch(f, MsgRecords(f.num, f.typ.schema, ms))
    requires FieldFold(f, v, MsgRecords(f.num, f.typ.schema, ms), budget) == Some(Msgs(v.ms + ms))
    ensures ValueClean(f.typ, Msgs(ms))
    decreases f, 1, |ms|
  {
    if ms != [] {
      hide Parse, Serialize, Empty, Conforms, ValueConforms, FieldFold, Clean, ValueClean, WellFormed, Emit, AllMatch;
      FirstReadBack(f, v, ms, budget);
      var sub := f.typ.schema;
      var r := Len(f.num, Serialize(sub, ms[0]));
      PayloadSize(r);
      assert EmitAll(MsgRecords(f.num, sub, ms)) == Emit(r) + EmitAll(MsgRecords(f.num, sub, ms[1..])) by {
        assert ([r] + MsgRecords(f.num, sub, ms[1..]))[1..] == MsgRecords(f.num, sub, ms[1..]);
      }
      OnlyIfClean(sub, ms[0], budget - 1);
      MsgsOnlyIfClean(f, Msgs(v.ms + [ms[0]]), ms[1..], budget);
      CleanFirst(f.typ, ms);
    }
  }

  lemma {:induction false} FieldOnlyIfClean(f: Field, y: Value, budget: nat)
    requires WellFormedType(f.typ) && ValueConforms(f.typ, y)
    requires |EmitAll(FieldRecords(f, y))| < TWO_TO_THE_31
    requires AllMatch(f, FieldRecords(f, y))
    requires FieldFold(f, DefaultValue(f.typ), FieldRecords(f, y), budget) == Some(y)
    ensures ValueClean(f.typ, y)
    decreases f, 2
  {
    match f.typ
    case Sub(sub) =>
      if y.m.Some? {
        var rs := FieldRecords(f, y);
        assert rs[1..] == [];
        PayloadSize(rs[0]);
        OnlyIfClean(sub, y.m.value, budget - 1);
      }
    case RepSub(_) =>
      assert [] + y.ms == y.ms;
      MsgsOnlyIfClean(f, DefaultValue(f.typ), y.ms, budget);
    case _ =>
  }

  lemma {:induction false} OnlyIfClean(s: Schema, m: Msg, budget: nat)
    requires WellFormed(s) && Conforms(s, m) && |Serialize(s, m)| < TWO_TO_THE_31
    requires Parse(s, Empty(s), Serialize(s, m), budget) == Some(m)
    ensures Clean(s, m)
    decreases s, 3
  {
    var n := |s.fields|;
    var known := KnownRecords(s, m, 0);
    var rs := known + m.unk;
    MergePartialIsFold(s, Empty(s), Serialize(s, m), budget);
    LexRoundTrip(rs, budget);
    FoldIsByField(s, Empty(s), rs, budget);
    SelectConcat(s, n, known, m.unk);
    SelectKnown(s, m, 0, n);
    SelectAll(s, n, m.unk);
    EmitAllConcat(known, m.unk);
    forall k | 0 <= k < n ensures ValueClean(s.fields[k].typ, m.vals[k]) {
      SelectConcat(s, k, known, m.unk);
      SelectKnown(s, m, 0, k);
      SelectUniform(s, k, n, m.unk);
      FieldRecordsFit(s, m, 0, k);
      FieldRecordsMatch(s.fields[k], m.vals[k]);
      assert Select(s, k, rs) == FieldRecords(s.fields[k], m.vals[k]);
      FieldOnlyIfClean(s.fields[k], m.vals[k], budget);
    }
  }

  /** A message survives serializing and parsing exactly when no unknown field carries a known
      tag, every string is valid UTF-8 and the nesting fits the budget, at every level. */
  lemma {:induction false} RoundTripExactly(s: Schema, m: Msg, budget: nat)
    requires WellFormed(s) && Conforms(s, m) && |Serialize(s, m)| < TWO_TO_THE_31
    ensures Parse(s, Empty(s), Serialize(s, m), budget) == Some(m) <==> Good(s, m, budget)
  {
    MergeUnits(s, m);
    if Clean(s, m) {
      SerializeThenParse(s, Empty(s), m, budget);
    } else if Parse(s, Empty(s), Serialize(s, m), budget) == Some(m) {
      OnlyIfClean(s, m, budget);
    }
  }

  /** Canonical form: whatever bytes parsed, in whatever field order and with whatever repeats
      and unknown fields, what the message serializes to parses to the same message again. */
  lemma {:induction false} Canonical(s: Schema, bs: bytes, budget: nat)
    requires WellFormed(s) && Parse(s, Empty(s), bs, budget).Some?
    requires |Serialize(s, Parse(s, Empty(s), bs, budget).value)| < TWO_TO_THE_31
    ensures var m := Parse(s, Empty(s), bs, budget).value;
            Parse(s, Empty(s), Serialize(s, m), budget) == Some(m)
  {
    EmptyIsGood(s, budget);
    ParseKeeps(s, Empty(s), bs, budget);
    RoundTripExactly(s, Parse(s, Empty(s), bs, budget).value, budget);
  }
}

/** Where parsing onto a message and merging a parsed message part ways: a field whose last record
    carries its default value overwrites when parsed and is skipped when merged. */
module ExplicitDefaults {
  import opened Wire
  import opened Codec
  import opened MergeLaws
  import opened Parsing
  import opened Sizing
  import opened KeyRangeMessage

  /** No scalar field of the input ends on its default value where `x` holds another, at any level
      at which both are present. */
  ghost predicate NoClash(s: Schema, x: Msg, bs: bytes, budget: nat)
    requires Conforms(s, x)
    decreases s, 1
  {
    Lex(bs, budget).Some? ==>
      forall i :: 0 <= i < |s.fields| ==>
        FieldNoClash(s.fields[i], x.vals[i], Select(s, i, Lex(bs, budget).value), budget)
  }

  ghost predicate FieldNoClash(f: Field, v: Value, rs: seq<Record>, budget: nat)
    requires ValueConforms(f.typ, v) && AllMatch(f, rs)
    decreases f, 0
  {
    if rs == [] then true else
    var last := rs[|rs| - 1];
    assert Matches(f, last);
    match f.typ
    case Bytes => last.data != [] || v.b == []
    case Str => last.data != [] || v.b == []
    case RepStr => true
    case Sub(sub) => budget > 0 && v.m.Some? ==> NoClash(sub, v.m.value, Flatten(Datas(rs)), budget - 1)
    case RepSub(_) => true
    case _ => FromWire(f.typ, last.v) != 0 || v.n == 0
  }

  lemma {:induction false} MeaningOntoIsMerge(f: Field, v: Value, rs: seq<Record>, budget: nat)
    requires ValueConforms(f.typ, v) && AllMatch(f, rs)
    requires Meaning(f, DefaultValue(f.typ), rs, budget).Some?
    ensures Meaning(f, v, rs, budget) == Some(MergeValue(f.typ, v, Meaning(f, DefaultValue(f.typ), rs, budget).value))
       <==> FieldNoClash(f, v, rs, budget)
    decreases f, 0
  {
    if rs == [] {
      MergeValueUnits(f.typ, v);
    } else {
      match f.typ
      case Sub(sub) =>
        if v.m.Some? {
          ParseOntoIsMerge(sub, v.m.value, Flatten(Datas(rs)), budget - 1);
        } else {
          MergeUnits(sub, Parse(sub, Empty(sub), Flatten(Datas(rs)), budget - 1).value);
        }
      case RepStr => assert [] + Datas(rs) == Datas(rs);
      case RepSub(sub) =>
        var ms := ParseEach(sub, Datas(rs), budget - 1).value;
        assert [] + ms == ms;
      case _ =>
    }
  }

  /** Parsing an accepted input onto `x` is merging the parsed message into `x` exactly when the two
      do not clash. */
  lemma {:induction false} ParseOntoIsMerge(s: Schema, x: Msg, bs: bytes, budget: nat)
    requires Conforms(s, x) && Parse(s, Empty(s), bs, budget).Some?
    ensures Parse(s, x, bs, budget) == Some(Merge(s, x, Parse(s, Empty(s), bs, budget).value))
       <==> NoClash(s, x, bs, budget)
    decreases s, 1
  {
    ParseMeaning(s, Empty(s), bs, budget);
    ParseMeaning(s, x, bs, budget);
    AcceptanceIgnoresStart(s, x, Empty(s), bs, budget);
    var rs := Lex(bs, budget).value;
    var y, got := Parse(s, Empty(s), bs, budget).value, Parse(s, x, bs, budget).value;
    var merged := Merge(s, x, y);
    forall i | 0 <= i < |s.fields|
      ensures got.vals[i] == merged.vals[i] <==> FieldNoClash(s.fields[i], x.vals[i], Select(s, i, rs), budget)
    {
      MeaningOntoIsMerge(s.fields[i], x.vals[i], Select(s, i, rs), budget);
    }
    assert [] + Select(s, |s.fields|, rs) == Select(s, |s.fields|, rs);
    if NoClash(s, x, bs, budget) {
      assert got.vals == merged.vals;
    }
  }

  /** Hence, for raw inputs, parse-of-concatenation is merge-of-parses exactly when no scalar field
      of the second input ends on its default where the first has given it another value. */
  lemma {:induction false} ConcatenatedInputs(s: Schema, a: bytes, b: bytes, budget: nat)
    requires Parse(s, Empty(s), a, budget).Some? && Parse(s, Empty(s), b, budget).Some?
    ensures var x := Parse(s, Empty(s), a, budget).value;
            (Parse(s, Empty(s), a + b, budget) == Some(Merge(s, x, Parse(s, Empty(s), b, budget).value))
             <==> NoClash(s, x, b, budget))
  {
    ParseConcat(s, Empty(s), a, b, budget);
    ParseOntoIsMerge(s, Parse(s, Empty(s), a, budget).value, b, budget);
  }

  // ---------------------------------------------------------------- from every start

  /** No scalar field of the input ends on its default value, at any level. */
  ghost predicate NoExplicitDefault(s: Schema, bs: bytes, budget: nat)
    decreases s, 1
  {
    Lex(bs, budget).Some? ==>
      forall i :: 0 <= i < |s.fields| ==> EndsNonDefault(s.fields[i], Select(s, i, Lex(bs, budget).value), budget)
  }

  ghost predicate EndsNonDefault(f: Field, rs: seq<Record>, budget: nat)
    requires AllMatch(f, rs)
    decreases f, 0
  {
    if rs == [] then true else
    var last := rs[|rs| - 1];
    assert Matches(f, last);
    match f.typ
    case Bytes => last.data != []
    case Str => last.data != []
    case RepStr => true
    case Sub(sub) => budget > 0 ==> NoExplicitDefault(sub, Flatten(Datas(rs)), budget - 1)
    case RepSub(_) => true
    case _ => FromWire(f.typ, last.v) != 0
  }

  lemma {:induction false} FieldNeverClashes(f: Field, v: Value, rs: seq<Record>, budget: nat)
    requires ValueConforms(f.typ, v) && AllMatch(f, rs) && EndsNonDefault(f, rs, budget)
    ensures FieldNoClash(f, v, rs, budget)
    decreases f, 0
  {
    hide Lex, Select, Conforms, NoClash, NoExplicitDefault, FromWire;
    if rs != [] && f.typ.Sub? && budget > 0 && v.m.Some? {
      NeverClashes(f.typ.schema, v.m.value, Flatten(Datas(rs)), budget - 1);
    }
  }

  lemma {:induction false} NeverClashes(s: Schema, x: Msg, bs: bytes, budget: nat)
    requires Conforms(s, x) && NoExplicitDefault(s, bs, budget)
    ensures NoClash(s, x, bs, budget)
    decreases s, 1
  {
    if Lex(bs, budget).Some? {
      forall i | 0 <= i < |s.fields|
        ensures FieldNoClash(s.fields[i], x.vals[i], Select(s, i, Lex(bs, budget).value), budget)
      {
        FieldNeverClashes(s.fields[i], x.vals[i], Select(s, i, Lex(bs, budget).value), budget);
      }
    }
  }

  lemma {:induction false} FieldThatClashes(f: Field, rs: seq<Record>, budget: nat) returns (v: Value)
    requires AllMatch(f, rs) && !EndsNonDefault(f, rs, budget)
    ensures ValueConforms(f.typ, v) && !FieldNoClash(f, v, rs, budget)
    decreases f, 0
  {
    match f.typ
    case Sub(sub) =>
      var c := MessageThatClashes(sub, Flatten(Datas(rs)), budget - 1);
      v := Opt(Some(c));
    case Bytes => v := Blob([0]);
    case Str => v := Blob([0]);
    case _ => v := Num(1);
  }

  lemma {:induction false} MessageThatClashes(s: Schema, bs: bytes, budget: nat) returns (x: Msg)
    requires !NoExplicitDefault(s, bs, budget)
    ensures Conforms(s, x) && !NoClash(s, x, bs, budget)
    decreases s, 1
  {
    var rs := Lex(bs, budget).value;
    var i :| 0 <= i < |s.fields| && !EndsNonDefault(s.fields[i], Select(s, i, rs), budget);
    var v := FieldThatClashes(s.fields[i], Select(s, i, rs), budget);
    x := Msg(Empty(s).vals[i := v], []);
  }

  /** Parsing onto a message is merging the parsed message, for every message to start from,
      exactly when no scalar field of the input ends on an explicit default. */
  lemma {:induction false} ParseOntoIsMergeExactly(s: Schema, bs: bytes, budget: nat)
    requires Parse(s, Empty(s), bs, budget).Some?
    ensures (forall x :: Conforms(s, x) ==>
               Parse(s, x, bs, budget) == Some(Merge(s, x, Parse(s, Empty(s), bs, budget).value)))
       <==> NoExplicitDefault(s, bs, budget)
  {
    if NoExplicitDefault(s, bs, budget) {
      forall x | Conforms(s, x)
        ensures Parse(s, x, bs, budget) == Some(Merge(s, x, Parse(s, Empty(s), bs, budget).value))
      {
        NeverClashes(s, x, bs, budget);
        ParseOntoIsMerge(s, x, bs, budget);
      }
    } else {
      var x := MessageThatClashes(s, bs, budget);
      ParseOntoIsMerge(s, x, bs, budget);
    }
  }

  /** A KeyRange with start "x", followed by one with an explicit empty start. */
  lemma {:induction false} ExplicitDefaultOverwrites(budget: nat)
    ensures var a: bytes, b: bytes := [10, 1, 120], [10, 0];
            && Parse(KEY_RANGE, Empty(KEY_RANGE), a + b, budget) == Some(Msg([Blob([]), Blob([])], []))
            && Parse(KEY_RANGE, Empty(KEY_RANGE), a, budget) == Some(Msg([Blob([120]), Blob([])], []))
            && Parse(KEY_RANGE, Empty(KEY_RANGE), b, budget) == Some(Msg([Blob([]), Blob([])], []))
            && Merge(KEY_RANGE, Msg([Blob([120]), Blob([])], []), Msg([Blob([]), Blob([])], []))
            == Msg([Blob([120]), Blob([])], [])
  {
    OneStart([120], [], budget);
    OneStart([], [], budget);
    OneStart([], [120], budget);
    var x, y := Msg([Blob([120]), Blob([])], []), Msg([Blob([]), Blob([])], []);
    assert Empty(KEY_RANGE).vals == y.vals;
    MergeUnits(KEY_RANGE, x);
    hide Parse, Merge, Conforms, KEY_RANGE, Empty;
    assert [10, 1] + [120] == [10, 1, 120] && [10, 0] + [] == [10, 0];
    ParseConcat(KEY_RANGE, Empty(KEY_RANGE), [10, 1, 120], [10, 0], budget);
  }

  lemma {:induction false} OneStart(data: bytes, was: bytes, budget: nat)
    requires |data| < 0x80
    ensures Conforms(KEY_RANGE, Msg([Blob(was), Blob([])], []))
    ensures Parse(KEY_RANGE, Msg([Blob(was), Blob([])], []), [10, |data|] + data, budget)
         == Some(Msg([Blob(data), Blob([])], []))
  {
    var m, r := Msg([Blob(was), Blob([])], []), Len(1, data);
    assert EmitAll([r]) == [10, |data|] + data by {
      SingleRecord(r);
      assert EmitTag(1, WIRETYPE_LENGTH_DELIMITED) == [10] && EncodeVarint(|data|) == [|data|];
      assert [10] + ([|data|] + data) == [10, |data|] + data;
    }
    LexRoundTrip([r], budget);
    MergePartialIsFold(KEY_RANGE, m, EmitAll([r]), budget);
    DispatchIs(KEY_RANGE, 0, r);
    assert m.vals[0 := Blob(data)] == [Blob(data), Blob([])];
    assert [r][1..] == [];
  }
}

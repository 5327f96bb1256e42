/** The streaming parser against a declarative reading of its input: first the input as a
    sequence of records, then each field decided by its own records alone. */
module Parsing {
  import opened Wire
  import opened WireLaws
  import opened Codec
  import opened MergeLaws
  import Utf8

  /** Applying a record sequence from left to right. */
  function Fold(s: Schema, m: Msg, rs: seq<Record>, budget: nat): (w: Option<Msg>)
    requires Conforms(s, m)
    ensures w.Some? ==> Conforms(s, w.value)
    decreases |rs|
  {
    if rs == [] then Some(m)
    else
      var m1 :- Apply(s, m, rs[0], budget);
      Fold(s, m1, rs[1..], budget)
  }

  lemma {:induction false} MergePartialIsFold(s: Schema, m: Msg, bs: bytes, budget: nat)
    requires Conforms(s, m)
    ensures Parse(s, m, bs, budget)
         == match Lex(bs, budget)
            case None => None
            case Some(rs) => Fold(s, m, rs, budget)
    decreases |bs|
  {
    var (tag, rest) := ReadTag(bs);
    if tag != 0 && ReadRecord(tag, rest, budget).Some? {
      var (r, rest1) := ReadRecord(tag, rest, budget).value;
      var w := Apply(s, m, r, budget);
      if w.Some? {
        MergePartialIsFold(s, w.value, rest1, budget);
      }
      if Lex(rest1, budget).Some? {
        var more := Lex(rest1, budget).value;
        assert ([r] + more)[1..] == more;
      }
    }
  }

  lemma {:induction false} FoldConcat(s: Schema, m: Msg, a: seq<Record>, b: seq<Record>, budget: nat)
    requires Conforms(s, m)
    ensures Fold(s, m, a + b, budget)
         == match Fold(s, m, a, budget)
            case None => None
            case Some(m1) => Fold(s, m1, b, budget)
    decreases |a|
  {
    if a == [] {
      assert a + b == b;
    } else {
      assert (a + b)[1..] == a[1..] + b;
      var w := Apply(s, m, a[0], budget);
      if w.Some? {
        FoldConcat(s, w.value, a[1..], b, budget);
      }
    }
  }

  /** Parsing one input after another is parsing their concatenation, for any first input that
      parses, whatever message one starts from. */
  lemma {:induction false} ParseConcat(s: Schema, m: Msg, a: bytes, b: bytes, budget: nat)
    requires Conforms(s, m) && Parse(s, m, a, budget).Some?
    ensures Parse(s, m, a + b, budget) == Parse(s, Parse(s, m, a, budget).value, b, budget)
  {
    MergePartialIsFold(s, m, a, budget);
    MergePartialIsFold(s, m, a + b, budget);
    MergePartialIsFold(s, Parse(s, m, a, budget).value, b, budget);
    LexConcat(a, b, budget);
    if Lex(b, budget).Some? {
      FoldConcat(s, m, Lex(a, budget).value, Lex(b, budget).value, budget);
    }
  }

  // ---------------------------------------------------------------- field by field

  ghost predicate AllMatch(f: Field, rs: seq<Record>) {
    forall i :: 0 <= i < |rs| ==> Matches(f, rs[i])
  }

  /** The records that field `k` takes, in order; `k == |fields|` selects the unknown ones. */
  function Select(s: Schema, k: nat, rs: seq<Record>): (t: seq<Record>)
    ensures k < |s.fields| ==> AllMatch(s.fields[k], t)
    ensures |t| <= |rs|
  {
    if rs == [] then []
    else if Dispatch(s, rs[0]) == k then [rs[0]] + Select(s, k, rs[1..])
    else Select(s, k, rs[1..])
  }

  function FieldFold(f: Field, v: Value, rs: seq<Record>, budget: nat): (w: Option<Value>)
    requires ValueConforms(f.typ, v)
    requires AllMatch(f, rs)
    ensures w.Some? ==> ValueConforms(f.typ, w.value)
    decreases |rs|
  {
    if rs == [] then Some(v)
    else
      var v1 :- ApplyField(f, v, rs[0], budget);
      FieldFold(f, v1, rs[1..], budget)
  }

  /** Every field folds over its own records. */
  ghost predicate FieldsFold(s: Schema, m: Msg, rs: seq<Record>, budget: nat)
    requires Conforms(s, m)
  {
    forall i :: 0 <= i < |s.fields| ==>
      FieldFold(s.fields[i], m.vals[i], Select(s, i, rs), budget).Some?
  }

  ghost function ByField(s: Schema, m: Msg, rs: seq<Record>, budget: nat): Option<Msg>
    requires Conforms(s, m)
  {
    if FieldsFold(s, m, rs, budget) then
      Some(Msg(seq(|s.fields|, i requires 0 <= i < |s.fields| =>
                 FieldFold(s.fields[i], m.vals[i], Select(s, i, rs), budget).value),
               m.unk + Select(s, |s.fields|, rs)))
    else None
  }

  /** The parser never mixes fields: its result, failure included, is decided field by field
      from the records each field takes, and the unknown records are kept in order. */
  lemma {:induction false} FoldIsByField(s: Schema, m: Msg, rs: seq<Record>, budget: nat)
    requires Conforms(s, m)
    ensures Fold(s, m, rs, budget) == ByField(s, m, rs, budget)
    decreases |rs|
  {
    if rs == [] {
      assert FieldsFold(s, m, rs, budget);
      assert ByField(s, m, rs, budget).value.vals == m.vals;
      assert m.unk + [] == m.unk;
    } else {
      var r, rest := rs[0], rs[1..];
      assert rs == [r] + rest;
      var k := Dispatch(s, r);
      var w := Apply(s, m, r, budget);
      if w.None? {
        assert Select(s, k, rs)[0] == r;
        assert FieldFold(s.fields[k], m.vals[k], Select(s, k, rs), budget).None?;
      } else {
        FoldIsByField(s, w.value, rest, budget);
        StepByField(s, m, r, rest, w.value, budget);
      }
    }
  }

  lemma {:induction false} StepByField(s: Schema, m: Msg, r: Record, rest: seq<Record>, m1: Msg, budget: nat)
    requires Conforms(s, m) && Apply(s, m, r, budget) == Some(m1)
    ensures ByField(s, m, [r] + rest, budget) == ByField(s, m1, rest, budget)
  {
    var n := |s.fields|;
    var k := Dispatch(s, r);
    var rs := [r] + rest;
    assert rs[1..] == rest;
    forall i | 0 <= i < n
      ensures FieldFold(s.fields[i], m.vals[i], Select(s, i, rs), budget)
           == FieldFold(s.fields[i], m1.vals[i], Select(s, i, rest), budget)
    {
      if i == k {
        assert Select(s, i, rs)[1..] == Select(s, i, rest);
      }
    }
    assert m.unk + Select(s, n, rs) == m1.unk + Select(s, n, rest);
    assert FieldsFold(s, m, rs, budget) <==> FieldsFold(s, m1, rest, budget);
    if FieldsFold(s, m, rs, budget) {
      assert ByField(s, m, rs, budget).value.vals == ByField(s, m1, rest, budget).value.vals;
    }
  }

  /** Two record sequences that agree field by field, and on the order of the unknown records,
      parse alike from every start, failures included: the order between fields is free. */
  lemma {:induction false} FieldOrderIsFree(s: Schema, m: Msg, a: seq<Record>, b: seq<Record>, budget: nat)
    requires Conforms(s, m)
    requires forall k :: 0 <= k <= |s.fields| ==> Select(s, k, a) == Select(s, k, b)
    ensures Fold(s, m, a, budget) == Fold(s, m, b, budget)
  {
    FoldIsByField(s, m, a, budget);
    FoldIsByField(s, m, b, budget);
    assert FieldsFold(s, m, a, budget) <==> FieldsFold(s, m, b, budget);
    if FieldsFold(s, m, a, budget) {
      assert ByField(s, m, a, budget).value.vals == ByField(s, m, b, budget).value.vals;
    }
  }

  lemma {:induction false} SelectConcat(s: Schema, k: nat, a: seq<Record>, b: seq<Record>)
    ensures Select(s, k, a + b) == Select(s, k, a) + Select(s, k, b)
  {
    if a == [] {
      assert a + b == b;
    } else {
      assert (a + b)[1..] == a[1..] + b;
      SelectConcat(s, k, a[1..], b);
    }
  }

  /** Swapping neighbours with different field numbers, at least one of them known, changes
      nothing; two unknown neighbours must keep their order. */
  lemma {:induction false} SwapNeighbours(s: Schema, m: Msg, pre: seq<Record>, a: Record, b: Record,
                                          post: seq<Record>, budget: nat)
    requires Conforms(s, m)
    requires a.num != b.num
    requires Dispatch(s, a) < |s.fields| || Dispatch(s, b) < |s.fields|
    ensures Fold(s, m, pre + [a, b] + post, budget) == Fold(s, m, pre + [b, a] + post, budget)
  {
    forall k | 0 <= k <= |s.fields|
      ensures Select(s, k, pre + [a, b] + post) == Select(s, k, pre + [b, a] + post)
    {
      SelectConcat(s, k, pre + [a, b], post);
      SelectConcat(s, k, pre + [b, a], post);
      SelectConcat(s, k, pre, [a, b]);
      SelectConcat(s, k, pre, [b, a]);
      assert [a, b][1..] == [b] && [b, a][1..] == [a];
    }
    FieldOrderIsFree(s, m, pre + [a, b] + post, pre + [b, a] + post, budget);
  }

  // ---------------------------------------------------------------- what each field becomes

  function Datas(rs: seq<Record>): (ds: seq<bytes>)
    ensures |ds| == |rs|
  {
    if rs == [] then [] else [if rs[0].Len? then rs[0].data else []] + Datas(rs[1..])
  }

  function Flatten(ds: seq<bytes>): bytes {
    if ds == [] then [] else ds[0] + Flatten(ds[1..])
  }

  ghost predicate AllUtf8(ds: seq<bytes>) {
    ds == [] || (Utf8.Valid(ds[0]) && AllUtf8(ds[1..]))
  }

  ghost predicate AllLex(ds: seq<bytes>, budget: nat) {
    ds == [] || (Lex(ds[0], budget).Some? && AllLex(ds[1..], budget))
  }

  /** Every payload parsed by itself into a cleared message. */
  function ParseEach(sub: Schema, ds: seq<bytes>, budget: nat): (w: Option<seq<Msg>>)
    ensures w.Some? ==> forall i :: 0 <= i < |w.value| ==> Conforms(sub, w.value[i])
  {
    if ds == [] then Some([])
    else
      var m :- Parse(sub, Empty(sub), ds[0], budget);
      var ms :- ParseEach(sub, ds[1..], budget);
      Some([m] + ms)
  }

  /** The declarative reading. A scalar ends as its last record, cut to its type, or stays. A
      string does too, provided every one of its records is valid UTF-8, overwritten ones
      included. Repeated fields append every payload in order. An optional sub-message is
      the parse of all its payloads joined together, onto the one already there, provided
      each payload is complete by itself. */
  ghost function Meaning(f: Field, v: Value, rs: seq<Record>, budget: nat): (w: Option<Value>)
    requires ValueConforms(f.typ, v)
    requires AllMatch(f, rs)
    ensures w.Some? ==> ValueConforms(f.typ, w.value)
  {
    if rs == [] then Some(v) else
    var last := rs[|rs| - 1];
    assert Matches(f, last);
    match f.typ
    case Bytes => Some(Blob(last.data))
    case Str => if AllUtf8(Datas(rs)) then Some(Blob(last.data)) else None
    case RepStr => if AllUtf8(Datas(rs)) then Some(Blobs(v.bs + Datas(rs))) else None
    case Sub(sub) =>
      if budget == 0 || !AllLex(Datas(rs), budget - 1) then None else
      var m :- Parse(sub, if v.m.None? then Empty(sub) else v.m.value, Flatten(Datas(rs)), budget - 1);
      Some(Opt(Some(m)))
    case RepSub(sub) =>
      if budget == 0 then None else
      var ms :- ParseEach(sub, Datas(rs), budget - 1);
      Some(Msgs(v.ms + ms))
    case _ => Some(Num(FromWire(f.typ, last.v)))
  }

  /** A complete input parses first and decides whether a longer one can parse at all. */
  lemma {:induction false} ParseFirst(s: Schema, m: Msg, a: bytes, b: bytes, budget: nat)
    requires Conforms(s, m) && Lex(a, budget).Some?
    ensures Parse(s, m, a + b, budget)
         == match Parse(s, m, a, budget)
            case None => None
            case Some(m1) => Parse(s, m1, b, budget)
  {
    if Parse(s, m, a, budget).Some? {
      ParseConcat(s, m, a, b, budget);
    } else {
      MergePartialIsFold(s, m, a, budget);
      MergePartialIsFold(s, m, a + b, budget);
      LexConcat(a, b, budget);
      if Lex(b, budget).Some? {
        FoldConcat(s, m, Lex(a, budget).value, Lex(b, budget).value, budget);
      }
    }
  }

  lemma {:induction false} StepStr(f: Field, v: Value, rs: seq<Record>, budget: nat)
    requires f.typ.Str? && rs != [] && ValueConforms(f.typ, v)
    requires AllMatch(f, rs)
    ensures Meaning(f, v, rs, budget)
         == match ApplyField(f, v, rs[0], budget)
            case None => None
            case Some(v1) => Meaning(f, v1, rs[1..], budget)
  {
    assert Matches(f, rs[0]);
    var ds, rest := Datas(rs), Datas(rs[1..]);
    assert ds == [rs[0].data] + rest && ds[1..] == rest;
    assert AllUtf8(ds) <==> Utf8.Valid(rs[0].data) && AllUtf8(rest);
    if |rs| > 1 {
      assert rs[1..][|rs| - 2] == rs[|rs| - 1];
    } else {
      assert rs[1..] == [] && rest == [];
    }
  }

  lemma {:induction false} StepRepStr(f: Field, v: Value, rs: seq<Record>, budget: nat)
    requires f.typ.RepStr? && rs != [] && ValueConforms(f.typ, v)
    requires AllMatch(f, rs)
    ensures Meaning(f, v, rs, budget)
         == match ApplyField(f, v, rs[0], budget)
            case None => None
            case Some(v1) => Meaning(f, v1, rs[1..], budget)
  {
    assert Matches(f, rs[0]);
    var ds, rest := Datas(rs), Datas(rs[1..]);
    assert ds == [rs[0].data] + rest && ds[1..] == rest;
    assert AllUtf8(ds) <==> Utf8.Valid(rs[0].data) && AllUtf8(rest);
    assert v.bs + ds == v.bs + [rs[0].data] + rest;
    assert rs[1..] == [] ==> v.bs + ds == v.bs + [rs[0].data];
  }

  lemma {:induction false} StepSub(f: Field, v: Value, rs: seq<Record>, budget: nat)
    requires f.typ.Sub? && rs != [] && ValueConforms(f.typ, v)
    requires AllMatch(f, rs)
    ensures Meaning(f, v, rs, budget)
         == match ApplyField(f, v, rs[0], budget)
            case None => None
            case Some(v1) => Meaning(f, v1, rs[1..], budget)
  {
    hide Conforms, Parse, Empty, Lex;
    if budget > 0 {
      assert Matches(f, rs[0]);
      var sub := f.typ.schema;
      var start := if v.m.None? then Empty(sub) else v.m.value;
      var d, rest := rs[0].data, Datas(rs[1..]);
      var ds := Datas(rs);
      assert ds == [d] + rest && ds[1..] == rest;
      assert Flatten(ds) == d + Flatten(rest);
      assert AllLex(ds, budget - 1) <==> Lex(d, budget - 1).Some? && AllLex(rest, budget - 1);
      MergePartialIsFold(sub, start, d, budget - 1);
      if Lex(d, budget - 1).Some? {
        ParseFirst(sub, start, d, Flatten(rest), budget - 1);
        if rs[1..] == [] {
          assert Flatten(rest) == [] && d + [] == d;
        }
      }
    }
  }

  lemma {:induction false} StepRepSub(f: Field, v: Value, rs: seq<Record>, budget: nat)
    requires f.typ.RepSub? && rs != [] && ValueConforms(f.typ, v)
    requires AllMatch(f, rs)
    ensures Meaning(f, v, rs, budget)
         == match ApplyField(f, v, rs[0], budget)
            case None => None
            case Some(v1) => Meaning(f, v1, rs[1..], budget)
  {
    if budget > 0 {
      assert Matches(f, rs[0]);
      var sub := f.typ.schema;
      var d, rest := rs[0].data, Datas(rs[1..]);
      assert Datas(rs)[1..] == rest;
      if Parse(sub, Empty(sub), d, budget - 1).Some? && ParseEach(sub, rest, budget - 1).Some? {
        var m, ms := Parse(sub, Empty(sub), d, budget - 1).value, ParseEach(sub, rest, budget - 1).value;
        assert v.ms + ([m] + ms) == v.ms + [m] + ms;
        assert rest == [] ==> v.ms + [m] + ms == v.ms + [m];
      }
    }
  }

  /** Folding a field over its records gives its declarative reading, failures included. */
  lemma {:induction false} FieldFoldIsMeaning(f: Field, v: Value, rs: seq<Record>, budget: nat)
    requires ValueConforms(f.typ, v)
    requires AllMatch(f, rs)
    ensures FieldFold(f, v, rs, budget) == Meaning(f, v, rs, budget)
    decreases |rs|
  {
    if rs != [] {
      var w := ApplyField(f, v, rs[0], budget);
      if w.Some? {
        FieldFoldIsMeaning(f, w.value, rs[1..], budget);
      }
      match f.typ
      case Str => StepStr(f, v, rs, budget);
      case RepStr => StepRepStr(f, v, rs, budget);
      case Sub(_) => StepSub(f, v, rs, budget);
      case RepSub(_) => StepRepSub(f, v, rs, budget);
      case _ =>
    }
  }

  /** The parser meets its declarative specification on every input: it accepts exactly when
      the input lexes and every field's records have a meaning, and then every field holds that
      meaning and the unknown records are appended in order. */
  lemma {:induction false} ParseMeaning(s: Schema, m: Msg, bs: bytes, budget: nat)
    requires Conforms(s, m)
    ensures Parse(s, m, bs, budget).Some? <==>
            Lex(bs, budget).Some? &&
            forall i :: 0 <= i < |s.fields| ==>
              Meaning(s.fields[i], m.vals[i], Select(s, i, Lex(bs, budget).value), budget).Some?
    ensures Parse(s, m, bs, budget).Some? ==>
            var rs := Lex(bs, budget).value;
            var r := Parse(s, m, bs, budget).value;
            && r.unk == m.unk + Select(s, |s.fields|, rs)
            && forall i :: 0 <= i < |s.fields| ==>
                 Some(r.vals[i]) == Meaning(s.fields[i], m.vals[i], Select(s, i, rs), budget)
  {
    MergePartialIsFold(s, m, bs, budget);
    if Lex(bs, budget).Some? {
      var rs := Lex(bs, budget).value;
      FoldIsByField(s, m, rs, budget);
      forall i | 0 <= i < |s.fields|
        ensures FieldFold(s.fields[i], m.vals[i], Select(s, i, rs), budget)
             == Meaning(s.fields[i], m.vals[i], Select(s, i, rs), budget)
      {
        FieldFoldIsMeaning(s.fields[i], m.vals[i], Select(s, i, rs), budget);
      }
    }
  }

  // ---------------------------------------------------------------- which inputs parse

  lemma {:induction false} MeaningIgnoresStart(f: Field, v: Value, w: Value, rs: seq<Record>, budget: nat)
    requires ValueConforms(f.typ, v) && ValueConforms(f.typ, w) && AllMatch(f, rs)
    ensures Meaning(f, v, rs, budget).Some? <==> Meaning(f, w, rs, budget).Some?
    decreases f, 0
  {
    if f.typ.Sub? && budget > 0 {
      AcceptanceIgnoresStart(f.typ.schema, OrEmpty(f.typ.schema, v.m), OrEmpty(f.typ.schema, w.m),
                             Flatten(Datas(rs)), budget - 1);
    }
  }

  /** Whether an input is accepted does not depend on the message it is parsed onto. */
  lemma {:induction false} AcceptanceIgnoresStart(s: Schema, x: Msg, y: Msg, bs: bytes, budget: nat)
    requires Conforms(s, x) && Conforms(s, y)
    ensures Parse(s, x, bs, budget).Some? <==> Parse(s, y, bs, budget).Some?
    decreases s, 1
  {
    ParseMeaning(s, x, bs, budget);
    ParseMeaning(s, y, bs, budget);
    if Lex(bs, budget).Some? {
      forall i | 0 <= i < |s.fields|
        ensures var rs := Select(s, i, Lex(bs, budget).value);
                Meaning(s.fields[i], x.vals[i], rs, budget).Some? <==> Meaning(s.fields[i], y.vals[i], rs, budget).Some?
      {
        MeaningIgnoresStart(s.fields[i], x.vals[i], y.vals[i], Select(s, i, Lex(bs, budget).value), budget);
      }
    }
  }
}

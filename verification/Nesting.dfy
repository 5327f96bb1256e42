/** Readability taken apart: the strings of a message, and how deep it nests. A parser with a
    recursion limit of `budget` reads back exactly the messages with valid strings and at most
    `budget` levels. */
module Nesting {
  import opened Wire
  import opened Codec
  import opened MergeLaws
  import opened RoundTrip
  import Utf8

  function Max(a: nat, b: nat): nat {
    if a < b then b else a
  }

  /** Levels of groups among the unknown fields. */
  function RecordDepth(r: Record): nat
    decreases r, 0
  {
    match r
    case Group(_, body) => 1 + RecordsDepth(body)
    case _ => 0
  }

  function RecordsDepth(rs: seq<Record>): nat
    decreases rs, 1
  {
    if rs == [] then 0 else Max(RecordDepth(rs[0]), RecordsDepth(rs[1..]))
  }

  /** Levels of nested messages and groups below a message. */
  function Depth(s: Schema, m: Msg): nat
    requires Conforms(s, m)
    decreases s, 2
  {
    Max(RecordsDepth(m.unk), FieldsDepth(s, m, 0))
  }

  function FieldsDepth(s: Schema, m: Msg, i: nat): nat
    requires Conforms(s, m) && i <= |s.fields|
    decreases s, 1, |s.fields| - i
  {
    if i == |s.fields| then 0
    else Max(ValueDepth(s.fields[i].typ, m.vals[i]), FieldsDepth(s, m, i + 1))
  }

  function ValueDepth(t: FieldType, v: Value): nat
    requires ValueConforms(t, v)
    decreases t, 0
  {
    match t
    case Sub(sub) => if v.m.None? then 0 else 1 + Depth(sub, v.m.value)
    case RepSub(sub) => MsgsDepth(sub, v.ms)
    case _ => 0
  }

  function MsgsDepth(sub: Schema, ms: seq<Msg>): nat
    requires forall i :: 0 <= i < |ms| ==> Conforms(sub, ms[i])
    decreases sub, 3, |ms|
  {
    if ms == [] then 0 else Max(1 + Depth(sub, ms[0]), MsgsDepth(sub, ms[1..]))
  }

  /** Every string of the message is valid UTF-8, at every level. */
  ghost predicate StringsValid(s: Schema, m: Msg)
    requires Conforms(s, m)
    decreases s, 2
  {
    FieldsValid(s, m, 0)
  }

  ghost predicate FieldsValid(s: Schema, m: Msg, i: nat)
    requires Conforms(s, m) && i <= |s.fields|
    decreases s, 1, |s.fields| - i
  {
    i == |s.fields| || (ValueValid(s.fields[i].typ, m.vals[i]) && FieldsValid(s, m, i + 1))
  }

  ghost predicate ValueValid(t: FieldType, v: Value)
    requires ValueConforms(t, v)
    decreases t, 0
  {
    match t
    case Str => Utf8.Valid(v.b)
    case RepStr => forall i :: 0 <= i < |v.bs| ==> Utf8.Valid(v.bs[i])
    case Sub(sub) => v.m.Some? ==> StringsValid(sub, v.m.value)
    case RepSub(sub) => forall i :: 0 <= i < |v.ms| ==> StringsValid(sub, v.ms[i])
    case _ => true
  }

  lemma {:induction false} ShallowIsDepth(r: Record, budget: nat)
    ensures Shallow(r, budget) <==> RecordDepth(r) <= budget
    decreases r, 0
  {
    if r.Group? && budget > 0 {
      AllShallowIsDepth(r.body, budget - 1);
    }
  }

  lemma {:induction false} AllShallowIsDepth(rs: seq<Record>, budget: nat)
    ensures AllShallow(rs, budget) <==> RecordsDepth(rs) <= budget
    decreases rs, 1
  {
    if rs != [] {
      ShallowIsDepth(rs[0], budget);
      AllShallowIsDepth(rs[1..], budget);
      AllShallowSplits(rs, budget);
    }
  }

  lemma {:induction false} MsgsReadable(sub: Schema, ms: seq<Msg>, budget: nat)
    requires forall i :: 0 <= i < |ms| ==> Conforms(sub, ms[i])
    ensures AllReadable(sub, ms, budget)
       <==> (forall i :: 0 <= i < |ms| ==> StringsValid(sub, ms[i])) && MsgsDepth(sub, ms) <= budget
    decreases sub, 3, |ms|
  {
    if ms != [] {
      hide Readable, Depth, StringsValid, Conforms;
      if budget > 0 {
        ReadableIsDepth(sub, ms[0], budget - 1);
      }
      MsgsReadable(sub, ms[1..], budget);
      assert forall i :: 1 <= i < |ms| ==> ms[i] == ms[1..][i - 1];
    }
  }

  lemma {:induction false} ValueReadableIsDepth(t: FieldType, v: Value, budget: nat)
    requires ValueConforms(t, v)
    ensures ValueReadable(t, v, budget) <==> ValueValid(t, v) && ValueDepth(t, v) <= budget
    decreases t, 0
  {
    match t
    case Sub(sub) =>
      if v.m.Some? && budget > 0 {
        ReadableIsDepth(sub, v.m.value, budget - 1);
      }
    case RepSub(sub) => MsgsReadable(sub, v.ms, budget);
    case _ =>
  }

  lemma {:induction false} FieldsReadableIsDepth(s: Schema, m: Msg, i: nat, budget: nat)
    requires Conforms(s, m) && i <= |s.fields|
    ensures (forall k :: i <= k < |s.fields| ==> ValueReadable(s.fields[k].typ, m.vals[k], budget))
       <==> FieldsValid(s, m, i) && FieldsDepth(s, m, i) <= budget
    decreases s, 1, |s.fields| - i
  {
    hide ValueReadable, ValueValid, ValueDepth;
    if i < |s.fields| {
      ValueReadableIsDepth(s.fields[i].typ, m.vals[i], budget);
      FieldsReadableIsDepth(s, m, i + 1, budget);
    }
  }

  /** What the parser reads back: valid strings, and no more levels than the recursion limit. */
  lemma {:induction false} ReadableIsDepth(s: Schema, m: Msg, budget: nat)
    requires Conforms(s, m)
    ensures Readable(s, m, budget) <==> StringsValid(s, m) && Depth(s, m) <= budget
    decreases s, 2
  {
    AllShallowIsDepth(m.unk, budget);
    FieldsReadableIsDepth(s, m, 0, budget);
  }

  /** The round trip in these terms, for every recursion limit. */
  lemma {:induction false} ReadBackIff(s: Schema, m: Msg, budget: nat)
    requires WellFormed(s) && Conforms(s, m) && Clean(s, m) && |Serialize(s, m)| < TWO_TO_THE_31
    ensures Parse(s, Empty(s), Serialize(s, m), budget)
         == if StringsValid(s, m) && Depth(s, m) <= budget then Some(m) else None
  {
    hide Readable, Depth, StringsValid, Parse, Serialize, Merge;
    SerializeThenParse(s, Empty(s), m, budget);
    MergeUnits(s, m);
    ReadableIsDepth(s, m, budget);
  }
}

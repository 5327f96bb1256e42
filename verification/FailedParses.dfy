/** What a parse that returned false may leave in its message: always a message that keeps the
    dispatch invariant, but not always one that can be written and read back. */
module FailedParses {
  import opened Wire
  import opened WireLaws
  import opened Codec
  import opened MergeLaws
  import opened Parsing
  import opened ParseSteps
  import opened FieldSteps
  import opened RoundTrip
  import opened Stability
  import opened Sizing
  import opened Growth
  import opened CompactRequestMessage
  import Utf8

  // ---------------------------------------------------------------- the dispatch invariant

  lemma {:induction false} StoppedKeeps(s: Schema, m: Msg, bs: bytes, budget: nat)
    requires Conforms(s, m) && MergePartial(s, m, bs, budget).Stopped?
    ensures Keeps(s, m, MergePartial(s, m, bs, budget).msg, budget)
    decreases |bs|
  {
    hide Clean, Readable, Apply, ReadRecord;
    var (tag, rest) := ReadTag(bs);
    if tag != 0 {
      var (r, rest1) := ReadRecord(tag, rest, budget).value;
      RecordReadIsShallow(tag, rest, budget);
      ApplyKeeps(s, m, r, budget);
      StoppedKeeps(s, Apply(s, m, r, budget).value, rest1, budget);
    }
  }

  lemma {:induction false} NestedLeavesClean(sub: Schema, start: Msg, bs: bytes, budget: nat, c: Msg)
    requires Conforms(sub, start) && NestedLeaves(sub, start, bs, budget, c)
    ensures Conforms(sub, c) && (Clean(sub, start) ==> Clean(sub, c))
    decreases sub, 4
  {
    if budget > 0 {
      var inner := if ReadDelimited(bs).Some? then ReadDelimited(bs).value.0 else AfterLength(bs);
      if Reached(sub, start, inner, budget - 1, c) {
        ReachedIsClean(sub, start, inner, budget - 1, c);
      }
    }
  }

  lemma {:induction false} FieldLeavesClean(f: Field, v: Value, bs: bytes, budget: nat, w: Value)
    requires ValueConforms(f.typ, v) && FieldLeaves(f, v, bs, budget, w)
    ensures ValueConforms(f.typ, w) && (ValueClean(f.typ, v) ==> ValueClean(f.typ, w))
    decreases f, 0
  {
    hide NestedLeaves, Clean, Conforms;
    match f.typ
    case Sub(sub) =>
      EmptyIsGood(sub, 0);
      NestedLeavesClean(sub, OrEmpty(sub, v.m), bs, budget, w.m.value);
    case RepSub(sub) =>
      EmptyIsGood(sub, 0);
      NestedLeavesClean(sub, Empty(sub), bs, budget, w.ms[|v.ms|]);
      assert forall i :: 0 <= i < |v.ms| ==> w.ms[i] == w.ms[..|v.ms|][i];
    case _ =>
  }

  lemma {:induction false} TurnLeavesClean(s: Schema, m: Msg, tag: u32, rest: bytes, budget: nat, w: Msg)
    requires Conforms(s, m) && TurnLeaves(s, m, tag, rest, budget, w)
    ensures Conforms(s, w) && (Clean(s, m) ==> Clean(s, w))
    decreases s, 1
  {
    var k := Taker(s.fields, 0, tag);
    if k < |s.fields| {
      FieldLeavesClean(s.fields[k], m.vals[k], rest, budget, w.vals[k]);
    } else if w != m {
      DispatchIs(s, k, w.unk[|m.unk|]);
    }
  }

  lemma {:induction false} MayLeaveIsClean(s: Schema, m: Msg, bs: bytes, budget: nat, w: Msg)
    requires Conforms(s, m) && MayLeave(s, m, bs, budget, w)
    ensures Conforms(s, w) && (Clean(s, m) ==> Clean(s, w))
    decreases s, 2, |bs|
  {
    hide Clean, Conforms, Apply, ReadRecord, TurnLeaves;
    var (tag, rest) := ReadTag(bs);
    var read := ReadRecord(tag, rest, budget);
    if read.Some? && Apply(s, m, read.value.0, budget).Some? {
      RecordReadIsShallow(tag, rest, budget);
      ApplyKeeps(s, m, read.value.0, budget);
      MayLeaveIsClean(s, Apply(s, m, read.value.0, budget).value, read.value.1, budget, w);
    } else {
      TurnLeavesClean(s, m, tag, rest, budget, w);
    }
  }

  /** Whatever a parse returned, no known tag got among the unknown fields, at any level. */
  lemma {:induction false} ReachedIsClean(s: Schema, m: Msg, bs: bytes, budget: nat, w: Msg)
    requires Conforms(s, m) && Reached(s, m, bs, budget, w)
    ensures Conforms(s, w) && (Clean(s, m) ==> Clean(s, w))
    decreases s, 3
  {
    if MergePartial(s, m, bs, budget).Stopped? {
      StoppedKeeps(s, m, bs, budget);
    } else {
      MayLeaveIsClean(s, m, bs, budget, w);
    }
  }

  /** A number whose varint cannot be read is left as it was, and so is the rest of the message. */
  lemma {:induction false} UnreadNumberStays(s: Schema, m: Msg, k: nat, bs: bytes, budget: nat, w: Msg)
    requires WellFormed(s) && Conforms(s, m) && k < |s.fields| && IsNumeric(s.fields[k].typ)
    ensures TurnLeaves(s, m, 8 * s.fields[k].num, bs, budget, w) <==> w == m
  {
    TakerOfField(s, k);
    assert m.vals[k := m.vals[k]] == m.vals;
  }

  // ---------------------------------------------------------------- strings and nesting

  /** The parse of the input fails inside a string, or at a nested message one level too deep: the
      two places where the code changes the message before it finds out. */
  predicate Spoils(s: Schema, bs: bytes, budget: nat)
    decreases s, 2, |bs|
  {
    var (tag, rest) := ReadTag(bs);
    tag != 0 &&
    match ReadRecord(tag, rest, budget)
    case None => TurnSpoils(s, tag, rest, budget)
    case Some((r, rest1)) =>
      if Apply(s, Empty(s), r, budget).None? then TurnSpoils(s, tag, rest, budget)
      else Spoils(s, rest1, budget)
  }

  predicate TurnSpoils(s: Schema, tag: u32, rest: bytes, budget: nat)
    decreases s, 1
  {
    var k := Taker(s.fields, 0, tag);
    k < |s.fields| && FieldSpoils(s.fields[k].typ, rest, budget)
  }

  predicate FieldSpoils(t: FieldType, bs: bytes, budget: nat)
    decreases t, 0
  {
    match t
    case Str => true
    case RepStr => true
    case Sub(sub) => budget == 0 || Spoils(sub, Inner(bs), budget - 1)
    case RepSub(sub) => budget == 0 || Spoils(sub, Inner(bs), budget - 1)
    case _ => false
  }

  function Inner(bs: bytes): bytes {
    if ReadDelimited(bs).Some? then ReadDelimited(bs).value.0 else AfterLength(bs)
  }

  lemma {:induction false} ApplyIgnoresStart(s: Schema, x: Msg, y: Msg, r: Record, budget: nat)
    requires Conforms(s, x) && Conforms(s, y)
    ensures Apply(s, x, r, budget).Some? <==> Apply(s, y, r, budget).Some?
  {
    var k := Dispatch(s, r);
    if k < |s.fields| && s.fields[k].typ.Sub? && budget > 0 {
      var sub := s.fields[k].typ.schema;
      AcceptanceIgnoresStart(sub, OrEmpty(sub, x.vals[k].m), OrEmpty(sub, y.vals[k].m), r.data, budget - 1);
    }
  }

  lemma {:induction false} NestedLeavesReadable(sub: Schema, start: Msg, bs: bytes, budget: nat, c: Msg)
    requires budget > 0 && Conforms(sub, start) && Readable(sub, start, budget - 1)
    requires NestedLeaves(sub, start, bs, budget, c) && !Spoils(sub, Inner(bs), budget - 1)
    ensures Conforms(sub, c) && Readable(sub, c, budget - 1)
    decreases sub, 4
  {
    if Reached(sub, start, Inner(bs), budget - 1, c) {
      ReachedIsReadable(sub, start, Inner(bs), budget - 1, c);
    }
  }

  lemma {:induction false} FieldLeavesReadable(t: FieldType, f: Field, v: Value, bs: bytes, budget: nat, w: Value)
    requires f.typ == t && ValueConforms(t, v) && ValueReadable(t, v, budget)
    requires FieldLeaves(f, v, bs, budget, w) && !FieldSpoils(t, bs, budget)
    ensures ValueConforms(t, w) && ValueReadable(t, w, budget)
    decreases t, 0
  {
    hide NestedLeaves, Readable, Conforms, Spoils;
    FieldLeavesClean(f, v, bs, budget, w);
    match t
    case Sub(sub) =>
      EmptyIsGood(sub, budget - 1);
      NestedLeavesReadable(sub, OrEmpty(sub, v.m), bs, budget, w.m.value);
    case RepSub(sub) =>
      EmptyIsGood(sub, budget - 1);
      var c := w.ms[|v.ms|];
      NestedLeavesReadable(sub, Empty(sub), bs, budget, c);
      AllReadableConcat(sub, v.ms, [c], budget);
      assert w.ms == v.ms + [c];
    case _ =>
  }

  lemma {:induction false} TurnLeavesReadable(s: Schema, m: Msg, tag: u32, rest: bytes, budget: nat, w: Msg)
    requires Conforms(s, m) && Readable(s, m, budget)
    requires TurnLeaves(s, m, tag, rest, budget, w) && !TurnSpoils(s, tag, rest, budget)
    ensures Conforms(s, w) && Readable(s, w, budget)
    decreases s, 1
  {
    TurnLeavesClean(s, m, tag, rest, budget, w);
    var k := Taker(s.fields, 0, tag);
    if k < |s.fields| {
      FieldLeavesReadable(s.fields[k].typ, s.fields[k], m.vals[k], rest, budget, w.vals[k]);
    }
    assert FieldsReadable(s, w, budget);
  }

  lemma {:induction false} MayLeaveIsReadable(s: Schema, m: Msg, bs: bytes, budget: nat, w: Msg)
    requires Conforms(s, m) && Readable(s, m, budget)
    requires MayLeave(s, m, bs, budget, w) && !Spoils(s, bs, budget)
    ensures Conforms(s, w) && Readable(s, w, budget)
    decreases s, 2, |bs|
  {
    hide Clean, Readable, Conforms, Apply, ReadRecord, TurnLeaves, TurnSpoils;
    var (tag, rest) := ReadTag(bs);
    var read := ReadRecord(tag, rest, budget);
    if read.Some? {
      ApplyIgnoresStart(s, m, Empty(s), read.value.0, budget);
    }
    if read.Some? && Apply(s, m, read.value.0, budget).Some? {
      RecordReadIsShallow(tag, rest, budget);
      ApplyKeeps(s, m, read.value.0, budget);
      MayLeaveIsReadable(s, Apply(s, m, read.value.0, budget).value, read.value.1, budget, w);
    } else {
      TurnLeavesReadable(s, m, tag, rest, budget, w);
    }
  }

  lemma {:induction false} ReachedIsReadable(s: Schema, m: Msg, bs: bytes, budget: nat, w: Msg)
    requires Conforms(s, m) && Readable(s, m, budget)
    requires Reached(s, m, bs, budget, w) && !Spoils(s, bs, budget)
    ensures Conforms(s, w) && Readable(s, w, budget)
    decreases s, 3
  {
    if MergePartial(s, m, bs, budget).Stopped? {
      StoppedKeeps(s, m, bs, budget);
    } else {
      MayLeaveIsReadable(s, m, bs, budget, w);
    }
  }

  // ---------------------------------------------------------------- when it can be spoiled

  /** The field refuses what stands behind its tag. */
  ghost predicate Refuses(f: Field, v: Value, bs: bytes, budget: nat)
    requires ValueConforms(f.typ, v)
  {
    match ReadRecord(FieldTag(f), bs, budget)
    case None => true
    case Some((r, _)) => ApplyField(f, v, r, budget).None?
  }

  lemma {:induction false} NestedFromInner(sub: Schema, start: Msg, bs: bytes, budget: nat)
    requires budget > 0 && Conforms(sub, start)
    ensures forall c :: Reached(sub, start, Inner(bs), budget - 1, c) ==> NestedLeaves(sub, start, bs, budget, c)
  {
    hide Reached, Conforms;
  }

  lemma {:induction false} SpoiledNested(sub: Schema, start: Msg, bs: bytes, budget: nat) returns (c: Msg)
    requires Conforms(sub, start) && (budget == 0 || Spoils(sub, Inner(bs), budget - 1))
    ensures Conforms(sub, c) && NestedLeaves(sub, start, bs, budget, c)
    ensures budget > 0 ==> !Readable(sub, c, budget - 1)
    decreases sub, 4
  {
    hide Readable, Conforms, Spoils, Reached, Inner;
    if budget == 0 {
      c := start;
    } else {
      NestedFromInner(sub, start, bs, budget);
      c := SpoiledMessage(sub, start, Inner(bs), budget - 1);
    }
  }

  lemma {:induction false} SpoiledField(t: FieldType, f: Field, v: Value, bs: bytes, budget: nat) returns (w: Value)
    requires f.typ == t && ValueConforms(t, v) && FieldSpoils(t, bs, budget) && Refuses(f, v, bs, budget)
    ensures ValueConforms(t, w) && FieldLeaves(f, v, bs, budget, w) && !ValueReadable(t, w, budget)
    decreases t, 0
  {
    hide NestedLeaves, Readable, Conforms, Spoils;
    var b: bytes := if ReadDelimited(bs).Some? then ReadDelimited(bs).value.0 else [0xFF];
    DelimitedStep(f.num, bs, budget);
    match t
    case Str => w := Blob(b);
    case RepStr =>
      w := Blobs(v.bs + [b]);
      assert w.bs[|v.bs|] == b;
    case Sub(sub) =>
      var c := SpoiledNested(sub, OrEmpty(sub, v.m), bs, budget);
      w := Opt(Some(c));
    case RepSub(sub) =>
      var c := SpoiledNested(sub, Empty(sub), bs, budget);
      w := Msgs(v.ms + [c]);
      AllReadableConcat(sub, v.ms, [c], budget);
  }

  lemma {:induction false} SpoiledTurn(s: Schema, m: Msg, tag: u32, rest: bytes, budget: nat) returns (w: Msg)
    requires Conforms(s, m) && TurnSpoils(s, tag, rest, budget)
    requires ReadRecord(tag, rest, budget).None? || Apply(s, m, ReadRecord(tag, rest, budget).value.0, budget).None?
    ensures Conforms(s, w) && TurnLeaves(s, m, tag, rest, budget, w) && !Readable(s, w, budget)
    decreases s, 1
  {
    var k := Taker(s.fields, 0, tag);
    if ReadRecord(tag, rest, budget).Some? {
      TakerDispatches(s, tag, rest, budget);
    }
    var v := SpoiledField(s.fields[k].typ, s.fields[k], m.vals[k], rest, budget);
    w := Msg(m.vals[k := v], m.unk);
    assert !ValueReadable(s.fields[k].typ, w.vals[k], budget);
  }

  lemma {:induction false} SpoiledMessage(s: Schema, m: Msg, bs: bytes, budget: nat) returns (w: Msg)
    requires Conforms(s, m) && Spoils(s, bs, budget)
    ensures Conforms(s, w) && Reached(s, m, bs, budget, w) && !Readable(s, w, budget)
    decreases s, 2, |bs|
  {
    hide Readable, Conforms, Apply, ReadRecord, TurnLeaves, TurnSpoils;
    var (tag, rest) := ReadTag(bs);
    var read := ReadRecord(tag, rest, budget);
    if read.Some? {
      ApplyIgnoresStart(s, m, Empty(s), read.value.0, budget);
    }
    if read.Some? && Apply(s, m, read.value.0, budget).Some? {
      w := SpoiledMessage(s, Apply(s, m, read.value.0, budget).value, read.value.1, budget);
    } else {
      w := SpoiledTurn(s, m, tag, rest, budget);
    }
  }

  /** What a parse leaves in a readable message is readable, whatever the parse returned and however
      far it got, exactly when the input does not fail inside a string or too deep. */
  lemma {:induction false} StaysReadableExactly(s: Schema, m: Msg, bs: bytes, budget: nat)
    requires Conforms(s, m) && Readable(s, m, budget)
    ensures (forall w :: Conforms(s, w) && Reached(s, m, bs, budget, w) ==> Readable(s, w, budget))
       <==> !Spoils(s, bs, budget)
  {
    if Spoils(s, bs, budget) {
      var w := SpoiledMessage(s, m, bs, budget);
    } else {
      forall w | Conforms(s, w) && Reached(s, m, bs, budget, w) ensures Readable(s, w, budget) {
        ReachedIsReadable(s, m, bs, budget, w);
      }
    }
  }

  // ---------------------------------------------------------------- a refused string

  /** A CompactRequest whose cf is the single byte 0xFF. */
  const REFUSED := Msg([Num(0), Blob([0xFF]), Blob([]), Blob([]), Num(0), Num(0)], [])

  lemma {:induction false} RefusedValue()
    ensures Conforms(COMPACT_REQUEST, REFUSED) && Clean(COMPACT_REQUEST, REFUSED)
    ensures REFUSED == Msg(Empty(COMPACT_REQUEST).vals[1 := Blob([0xFF])], [])
  {
    assert Empty(COMPACT_REQUEST).vals == [Num(0), Blob([]), Blob([]), Blob([]), Num(0), Num(0)];
  }

  /** A parse of three bytes that is refused for its string, and leaves that string. Merging what it
      left into a cleared message then makes one whose serialization cannot be read back. */
  lemma {:induction false} RefusedStringStays(budget: nat)
    ensures var s, bs: bytes := COMPACT_REQUEST, [18, 1, 0xFF];
            && Conforms(s, REFUSED)
            && MergePartial(s, Empty(s), bs, budget) == Failed && Spoils(s, bs, budget)
            && (forall w :: Reached(s, Empty(s), bs, budget, w) <==> w == REFUSED)
            && Parse(s, Empty(s), Serialize(s, Merge(s, Empty(s), REFUSED)), budget) == None
  {
    var s, bs: bytes := COMPACT_REQUEST, [18, 1, 0xFF];
    RefusedValue();
    RefusedTag(budget);
    RefusedTurn(budget);
    RefusedUnreadable(budget);
    hide Conforms, Clean, Readable, Serialize, Parse, Merge, COMPACT_REQUEST, REFUSED;
    hide TurnLeaves, Apply, Taker, ReadRecord;
    assert MergePartial(s, Empty(s), bs, budget) == Failed;
  }

  lemma {:induction false} RefusedTurn(budget: nat)
    ensures var s, rest: bytes := COMPACT_REQUEST, [18, 1, 0xFF][1..];
            && Apply(s, Empty(s), Len(2, [0xFF]), budget) == None
            && TurnSpoils(s, 18, rest, budget)
            && forall w :: TurnLeaves(s, Empty(s), 18, rest, budget, w) <==> w == REFUSED
  {
    var s, rest: bytes := COMPACT_REQUEST, [18, 1, 0xFF][1..];
    RefusedValue();
    RefusedTag(budget);
    assert Taker(s.fields, 0, 18) == 1;
    DispatchIs(s, 1, Len(2, [0xFF]));
    assert !Utf8.Valid([0xFF]);
  }

  lemma {:induction false} RefusedTag(budget: nat)
    ensures var bs: bytes := [18, 1, 0xFF];
            && ReadTag(bs) == (18, bs[1..])
            && ReadDelimited(bs[1..]) == Some(([0xFF], []))
            && ReadRecord(18, bs[1..], budget) == Some((Len(2, [0xFF]), []))
  {
    var bs: bytes := [18, 1, 0xFF];
    VarintRoundTrip(18, [1, 0xFF]);
    assert EncodeVarint(18) == [18] && [18] + [1, 0xFF] == bs && bs[1..] == [1, 0xFF];
    DelimitedRoundTrip([0xFF], []);
    assert EncodeVarint(1) == [1] && [1] + [0xFF] + [] == bs[1..];
    DelimitedStep(2, bs[1..], budget);
  }

  lemma {:induction false} RefusedUnreadable(budget: nat)
    requires Conforms(COMPACT_REQUEST, REFUSED) && Clean(COMPACT_REQUEST, REFUSED)
    ensures Parse(COMPACT_REQUEST, Empty(COMPACT_REQUEST),
                  Serialize(COMPACT_REQUEST, Merge(COMPACT_REQUEST, Empty(COMPACT_REQUEST), REFUSED)), budget) == None
  {
    var s := COMPACT_REQUEST;
    assert !Readable(s, REFUSED, budget) by {
      assert !ValueReadable(s.fields[1].typ, REFUSED.vals[1], budget);
    }
    RefusedSize();
    CompactRequestWellFormed();
    MergeUnits(s, REFUSED);
    hide Serialize, Readable, Clean, Parse, Merge, Conforms, WellFormed, COMPACT_REQUEST;
    SerializeThenParse(s, Empty(s), REFUSED, budget);
  }

  lemma {:induction false} RefusedSize()
    requires Conforms(COMPACT_REQUEST, REFUSED)
    ensures |Serialize(COMPACT_REQUEST, REFUSED)| < TWO_TO_THE_31
  {
    var s := COMPACT_REQUEST;
    RefusedValue();
    CompactRequestWellFormed();
    assert Empty(s).(vals := Empty(s).vals[1 := Blob([0xFF])]) == REFUSED && RecordSizes([]) == 0;
    hide Conforms, WellFormed, Empty, FieldSizes, Serialize, RecordSizes;
    ByteSizeIsLength(s, REFUSED);
    EmptySize(s);
    FieldSizesUpdate(s, Empty(s), 1, Blob([0xFF]), 0);
    assert VarintSize(1) == 1;
  }
}

/** One turn of the parse loop, for every way it can end: what a successful turn does, and what a
    failed one may leave in the message, which stays usable. */
module ParseSteps {
  import opened Wire
  import opened Codec

  function FieldTag(f: Field): u32 {
    Tag(f.num, FieldWireType(f.typ))
  }

  /** The field that a tag leads to, or |fields| when there is none. */
  function Taker(fs: seq<Field>, i: nat, tag: u32): (k: nat)
    requires i <= |fs|
    ensures i <= k <= |fs|
    ensures k < |fs| ==> FieldTag(fs[k]) == tag
    ensures forall j :: i <= j < k ==> FieldTag(fs[j]) != tag
    decreases |fs| - i
  {
    if i == |fs| || FieldTag(fs[i]) == tag then i else Taker(fs, i + 1, tag)
  }

  /** A record goes where its tag leads. */
  lemma {:induction false} TakerDispatches(s: Schema, tag: u32, bs: bytes, budget: nat)
    requires ReadRecord(tag, bs, budget).Some?
    ensures Dispatch(s, ReadRecord(tag, bs, budget).value.0) == Taker(s.fields, 0, tag)
  {
    var r, k := ReadRecord(tag, bs, budget).value.0, Taker(s.fields, 0, tag);
    forall j | 0 <= j < |s.fields| ensures Matches(s.fields[j], r) <==> FieldTag(s.fields[j]) == tag {
    }
    DispatchIs(s, k, r);
  }

  // ---------------------------------------------------------------- what a failed parse may leave

  /** The bytes behind a length that can be read, although not all it announces is there. */
  function AfterLength(bs: bytes): bytes {
    match ReadVarint(bs)
    case None => []
    case Some((_, rest)) => rest
  }

  /** What may be in the message when the parse of `bs` returns false: the records before the one
      that failed, and what the failing one may leave. */
  ghost predicate MayLeave(s: Schema, m: Msg, bs: bytes, budget: nat, w: Msg)
    requires Conforms(s, m)
    decreases s, 2, |bs|
  {
    var (tag, rest) := ReadTag(bs);
    tag != 0 &&
    match ReadRecord(tag, rest, budget)
    case None => TurnLeaves(s, m, tag, rest, budget, w)
    case Some((r, rest1)) =>
      match Apply(s, m, r, budget)
      case None => TurnLeaves(s, m, tag, rest, budget, w)
      case Some(m1) => MayLeave(s, m1, rest1, budget, w)
  }

  /** A failing turn touches one field, or adds one half-read record to the unknown fields. */
  ghost predicate TurnLeaves(s: Schema, m: Msg, tag: u32, rest: bytes, budget: nat, w: Msg)
    requires Conforms(s, m)
    decreases s, 1
  {
    var k := Taker(s.fields, 0, tag);
    if k == |s.fields| then UnknownLeaves(m, tag, budget, w)
    else
      && |w.vals| == |m.vals| && w == Msg(m.vals[k := w.vals[k]], m.unk)
      && FieldLeaves(s.fields[k], m.vals[k], rest, budget, w.vals[k])
  }

  /** SkipField adds a length-delimited record or a group before it reads its content; the depth
      check comes before the group is added. */
  ghost predicate UnknownLeaves(m: Msg, tag: u32, budget: nat, w: Msg) {
    w == m ||
    exists r: Record :: (r.Len? || r.Group?) && r.num == tag / 8 && WireType(r) == tag % 8 && Shallow(r, budget) &&
                        w == m.(unk := m.unk + [r])
  }

  /** Numbers are stored only when read; a blob may be cut short, and a refused string stays; the
      target of a repeated string or of a nested message is added before it is read into. */
  ghost predicate FieldLeaves(f: Field, v: Value, bs: bytes, budget: nat, w: Value)
    requires ValueConforms(f.typ, v)
    decreases f, 0
  {
    match f.typ
    case Bytes => w.Blob?
    case Str => w.Blob? && (ReadDelimited(bs).Some? ==> w.b == ReadDelimited(bs).value.0)
    case RepStr =>
      && w.Blobs? && |w.bs| == |v.bs| + 1 && w.bs[..|v.bs|] == v.bs
      && (ReadDelimited(bs).Some? ==> w.bs[|v.bs|] == ReadDelimited(bs).value.0)
    case Sub(sub) =>
      && w.Opt? && w.m.Some?
      && NestedLeaves(sub, if v.m.None? then Empty(sub) else v.m.value, bs, budget, w.m.value)
    case RepSub(sub) =>
      && w.Msgs? && |w.ms| == |v.ms| + 1 && w.ms[..|v.ms|] == v.ms
      && NestedLeaves(sub, Empty(sub), bs, budget, w.ms[|v.ms|])
    case _ => w == v
  }

  ghost predicate NestedLeaves(sub: Schema, start: Msg, bs: bytes, budget: nat, c: Msg)
    requires Conforms(sub, start)
    decreases sub, 4
  {
    if budget == 0 then c == start
    else match ReadDelimited(bs)
      case Some((data, _)) => Reached(sub, start, data, budget - 1, c)
      case None => c == start || Reached(sub, start, AfterLength(bs), budget - 1, c)
  }

  /** What may be in the message after a parse of `bs`, whatever it returned. */
  ghost predicate Reached(s: Schema, m: Msg, bs: bytes, budget: nat, w: Msg)
    requires Conforms(s, m)
    decreases s, 3
  {
    match MergePartial(s, m, bs, budget)
    case Stopped(m1, _) => w == m1
    case Failed => MayLeave(s, m, bs, budget, w)
  }

  // ---------------------------------------------------------------- one possibility of it

  function AfterParse(s: Schema, m: Msg, bs: bytes, budget: nat): (w: Msg)
    requires Conforms(s, m)
    ensures Conforms(s, w) && Reached(s, m, bs, budget, w)
    decreases s, 3
  {
    match MergePartial(s, m, bs, budget)
    case Stopped(m1, _) => m1
    case Failed => LeftBehind(s, m, bs, budget)
  }

  function LeftBehind(s: Schema, m: Msg, bs: bytes, budget: nat): (w: Msg)
    requires Conforms(s, m) && MergePartial(s, m, bs, budget).Failed?
    ensures Conforms(s, w) && MayLeave(s, m, bs, budget, w)
    decreases s, 2, |bs|
  {
    var (tag, rest) := ReadTag(bs);
    match ReadRecord(tag, rest, budget)
    case None => LeftByTurn(s, m, tag, rest, budget)
    case Some((r, rest1)) =>
      match Apply(s, m, r, budget)
      case None => LeftByTurn(s, m, tag, rest, budget)
      case Some(m1) => LeftBehind(s, m1, rest1, budget)
  }

  function LeftByTurn(s: Schema, m: Msg, tag: u32, rest: bytes, budget: nat): (w: Msg)
    requires Conforms(s, m)
    ensures Conforms(s, w) && TurnLeaves(s, m, tag, rest, budget, w)
    decreases s, 1
  {
    var k := Taker(s.fields, 0, tag);
    if k == |s.fields| then m
    else Msg(m.vals[k := LeftInField(s.fields[k], m.vals[k], rest, budget)], m.unk)
  }

  function LeftInField(f: Field, v: Value, bs: bytes, budget: nat): (w: Value)
    requires ValueConforms(f.typ, v)
    ensures ValueConforms(f.typ, w) && FieldLeaves(f, v, bs, budget, w)
    decreases f, 0
  {
    match f.typ
    case Bytes => Blob([])
    case Str => Blob(Fragment(bs))
    case RepStr => Blobs(v.bs + [Fragment(bs)])
    case Sub(sub) => Opt(Some(LeftInNested(sub, if v.m.None? then Empty(sub) else v.m.value, bs, budget)))
    case RepSub(sub) => Msgs(v.ms + [LeftInNested(sub, Empty(sub), bs, budget)])
    case _ => v
  }

  function LeftInNested(sub: Schema, start: Msg, bs: bytes, budget: nat): (c: Msg)
    requires Conforms(sub, start)
    ensures Conforms(sub, c) && NestedLeaves(sub, start, bs, budget, c)
    decreases sub, 4
  {
    if budget == 0 then start
    else match ReadDelimited(bs)
      case Some((data, _)) => AfterParse(sub, start, data, budget - 1)
      case None => start
  }

  function Fragment(bs: bytes): bytes {
    if ReadDelimited(bs).Some? then ReadDelimited(bs).value.0 else []
  }

  // ---------------------------------------------------------------- one turn of the parse loop

  /** One turn of the loop after a nonzero tag: it fails exactly when the record cannot be read
      or applied, leaving what a failing turn may leave, and otherwise puts the message and the
      input one record further. */
  ghost predicate Turn(s: Schema, m: Msg, tag: u32, rest: bytes, budget: nat, ok: bool, m1: Msg, rest1: bytes)
    requires Conforms(s, m)
  {
    match ReadRecord(tag, rest, budget)
    case None => !ok && TurnLeaves(s, m, tag, rest, budget, m1)
    case Some((r, rest2)) =>
      match Apply(s, m, r, budget)
      case None => !ok && TurnLeaves(s, m, tag, rest, budget, m1)
      case Some(m2) => ok && m1 == m2 && rest1 == rest2
  }

  /** How MergePartialFromCodedStream ends from `m` and `bs`, and with what in the message. */
  ghost predicate Ends(s: Schema, m: Msg, bs: bytes, budget: nat, ok: bool, atEnd: bool, w: Msg)
    requires Conforms(s, m)
  {
    match MergePartial(s, m, bs, budget)
    case Stopped(m1, e) => ok && w == m1 && atEnd == e
    case Failed => !ok && MayLeave(s, m, bs, budget, w)
  }

  /** A turn hands the rest of the parse on, or ends it. */
  lemma {:induction false} TurnIsStep(s: Schema, m: Msg, bs: bytes, budget: nat, read: bool, m1: Msg, rest1: bytes)
    requires Conforms(s, m) && ReadTag(bs).0 != 0
    requires Turn(s, m, ReadTag(bs).0, ReadTag(bs).1, budget, read, m1, rest1)
    ensures read ==> Conforms(s, m1) && |rest1| < |bs|
    ensures read ==> forall ok, atEnd, w ::
              Ends(s, m1, rest1, budget, ok, atEnd, w) ==> Ends(s, m, bs, budget, ok, atEnd, w)
    ensures !read ==> forall atEnd :: Ends(s, m, bs, budget, false, atEnd, m1)
  {
  }

  /** However the parse of `bs` from `m` ends, the parse of `bs0` from `m0` may end so. */
  ghost predicate Leads(s: Schema, m0: Msg, bs0: bytes, m: Msg, bs: bytes, budget: nat)
    requires Conforms(s, m0) && Conforms(s, m)
  {
    forall ok, atEnd, w :: Ends(s, m, bs, budget, ok, atEnd, w) ==> Ends(s, m0, bs0, budget, ok, atEnd, w)
  }

  lemma {:induction false} LeadsStart(s: Schema, m: Msg, bs: bytes, budget: nat)
    requires Conforms(s, m)
    ensures Leads(s, m, bs, m, bs, budget)
  {
  }

  lemma {:induction false} LeadsOn(s: Schema, m0: Msg, bs0: bytes, m: Msg, bs: bytes, budget: nat,
                                   read: bool, m1: Msg, rest1: bytes)
    requires Conforms(s, m0) && Conforms(s, m) && Leads(s, m0, bs0, m, bs, budget) && ReadTag(bs).0 != 0
    requires Turn(s, m, ReadTag(bs).0, ReadTag(bs).1, budget, read, m1, rest1)
    ensures read ==> Conforms(s, m1) && |rest1| < |bs| && Leads(s, m0, bs0, m1, rest1, budget)
    ensures !read ==> forall atEnd :: Ends(s, m0, bs0, budget, false, atEnd, m1)
  {
    TurnIsStep(s, m, bs, budget, read, m1, rest1);
    hide Turn, Ends;
    if !read {
      forall atEnd ensures Ends(s, m0, bs0, budget, false, atEnd, m1) {
        assert Ends(s, m, bs, budget, false, atEnd, m1);
      }
    }
  }

  lemma {:induction false} LeadsToEnd(s: Schema, m0: Msg, bs0: bytes, m: Msg, bs: bytes, budget: nat)
    requires Conforms(s, m0) && Conforms(s, m) && Leads(s, m0, bs0, m, bs, budget) && ReadTag(bs).0 == 0
    ensures Ends(s, m0, bs0, budget, true, bs == [], m)
  {
    assert Ends(s, m, bs, budget, true, bs == [], m);
  }

  /** Reading a nested message: a delimited payload, one unit of the recursion budget, and a
      complete parse of the payload. */
  ghost predicate ReadsMessage(s: Schema, m: Msg, bs: bytes, budget: nat, ok: bool, m1: Msg, rest1: bytes)
    requires Conforms(s, m)
  {
    match ReadDelimited(bs)
    case None => !ok && NestedLeaves(s, m, bs, budget, m1)
    case Some((data, rest)) =>
      if budget == 0 then !ok && NestedLeaves(s, m, bs, budget, m1)
      else match Parse(s, m, data, budget - 1)
        case None => !ok && NestedLeaves(s, m, bs, budget, m1)
        case Some(m2) => ok && m1 == m2 && rest1 == rest
  }

  /** A length-delimited tag reads a Len record. */
  lemma {:induction false} DelimitedStep(num: FieldNumber, bs: bytes, budget: nat)
    ensures ReadRecord(Tag(num, WIRETYPE_LENGTH_DELIMITED), bs, budget)
         == match ReadDelimited(bs)
            case None => None
            case Some((data, rest)) => Some((Len(num, data), rest))
  {
  }

  /** A varint tag reads a Varint record. */
  lemma {:induction false} VarintStep(num: FieldNumber, bs: bytes, budget: nat)
    ensures ReadRecord(Tag(num, WIRETYPE_VARINT), bs, budget)
         == match ReadVarint(bs)
            case None => None
            case Some((v, rest)) => Some((Varint(num, v), rest))
  {
  }
}

/** Whole runs over any number of messages of one class, failed parses included: what every message
    satisfies at every moment. */
module Runs {
  import opened Wire
  import opened Codec
  import opened MergeLaws
  import opened ParseSteps
  import opened RoundTrip
  import opened Stability
  import opened FailedParses

  datatype Op =
    | ParseFrom(i: nat, bs: bytes)        // Clear, then parse
    | MergeParse(i: nat, bs: bytes)       // parse onto the message
    | MergeFrom(i: nat, j: nat)
    | CopyFrom(i: nat, j: nat)
    | Clear(i: nat)
    | Swap(i: nat, j: nat)
    | Set(i: nat, k: nat, v: Value)       // a setter, adder or mutable accessor of field k

  type Store = seq<Msg>

  ghost predicate Held(s: Schema, st: Store) {
    forall i :: 0 <= i < |st| ==> Conforms(s, st[i])
  }

  /** Messages that exist; no merge of a message into itself; and a value of the field's type whose
      own nested messages keep the dispatch invariant. */
  ghost predicate Legal(s: Schema, n: nat, op: Op) {
    match op
    case ParseFrom(i, _) => i < n
    case MergeParse(i, _) => i < n
    case MergeFrom(i, j) => i < n && j < n && i != j
    case CopyFrom(i, j) => i < n && j < n
    case Clear(i) => i < n
    case Swap(i, j) => i < n && j < n
    case Set(i, k, v) =>
      i < n && k < |s.fields| && ValueConforms(s.fields[k].typ, v) && ValueClean(s.fields[k].typ, v)
  }

  ghost predicate AllLegal(s: Schema, n: nat, ops: seq<Op>) {
    forall t :: 0 <= t < |ops| ==> Legal(s, n, ops[t])
  }

  /** One operation. A parse leaves what it reached, whether it returned true or false. */
  ghost predicate Step(s: Schema, st: Store, op: Op, st1: Store, budget: nat)
    requires Held(s, st) && Legal(s, |st|, op)
  {
    match op
    case ParseFrom(i, bs) =>
      |st1| == |st| && st1 == st[i := st1[i]] && Reached(s, Empty(s), bs, budget, st1[i])
    case MergeParse(i, bs) =>
      |st1| == |st| && st1 == st[i := st1[i]] && Reached(s, st[i], bs, budget, st1[i])
    case MergeFrom(i, j) => st1 == st[i := Merge(s, st[i], st[j])]
    case CopyFrom(i, j) => st1 == if i == j then st else st[i := Merge(s, Empty(s), st[j])]
    case Clear(i) => st1 == st[i := Empty(s)]
    case Swap(i, j) => st1 == st[i := st[j]][j := st[i]]
    case Set(i, k, v) => st1 == st[i := st[i].(vals := st[i].vals[k := v])]
  }

  /** `trace` holds the store after each operation of one possible run from `st`. */
  ghost predicate Execution(s: Schema, st: Store, ops: seq<Op>, trace: seq<Store>, budget: nat)
    requires Held(s, st) && AllLegal(s, |st|, ops)
    decreases |ops|
  {
    && |trace| == |ops|
    && (ops != [] ==>
          && Legal(s, |st|, ops[0]) && Step(s, st, ops[0], trace[0], budget)
          && Held(s, trace[0]) && |trace[0]| == |st|
          && Execution(s, trace[0], ops[1..], trace[1..], budget))
  }

  function Start(s: Schema, n: nat): (st: Store)
    ensures |st| == n && Held(s, st)
  {
    seq(n, i => Empty(s))
  }

  ghost predicate AllClean(s: Schema, st: Store)
    requires Held(s, st)
  {
    forall i :: 0 <= i < |st| ==> Clean(s, st[i])
  }

  ghost predicate StoreReadable(s: Schema, st: Store, budget: nat)
    requires Held(s, st)
  {
    forall i :: 0 <= i < |st| ==> Readable(s, st[i], budget)
  }

  /** A setter that stores valid UTF-8 and nesting that fits; a parse whose input does not fail
      inside a string or too deep. Both can be told from the operation alone. */
  ghost predicate Harmless(s: Schema, n: nat, op: Op, budget: nat)
    requires Legal(s, n, op)
  {
    match op
    case ParseFrom(_, bs) => !Spoils(s, bs, budget)
    case MergeParse(_, bs) => !Spoils(s, bs, budget)
    case Set(_, k, v) => ValueReadable(s.fields[k].typ, v, budget)
    case _ => true
  }

  ghost predicate AllHarmless(s: Schema, n: nat, ops: seq<Op>, budget: nat)
    requires AllLegal(s, n, ops)
  {
    forall t :: 0 <= t < |ops| ==> Harmless(s, n, ops[t], budget)
  }

  lemma {:induction false} SetKeeps(s: Schema, m: Msg, k: nat, v: Value, budget: nat)
    requires Conforms(s, m) && k < |s.fields| && ValueConforms(s.fields[k].typ, v)
    ensures var w := m.(vals := m.vals[k := v]);
            && Conforms(s, w)
            && (Clean(s, m) && ValueClean(s.fields[k].typ, v) ==> Clean(s, w))
            && (Readable(s, m, budget) && ValueReadable(s.fields[k].typ, v, budget) ==> Readable(s, w, budget))
            && (!ValueReadable(s.fields[k].typ, v, budget) ==> !Readable(s, w, budget))
  {
    var w := m.(vals := m.vals[k := v]);
    assert Conforms(s, w) && w.vals[k] == v;
    assert FieldsReadable(s, m, budget) && ValueReadable(s.fields[k].typ, v, budget) ==> FieldsReadable(s, w, budget);
  }

  lemma {:induction false} StepKeeps(s: Schema, st: Store, op: Op, st1: Store, budget: nat)
    requires Held(s, st) && Legal(s, |st|, op) && Step(s, st, op, st1, budget)
    ensures |st1| == |st| && Held(s, st1)
    ensures AllClean(s, st) ==> AllClean(s, st1)
    ensures StoreReadable(s, st, budget) && Harmless(s, |st|, op, budget) ==> StoreReadable(s, st1, budget)
  {
    hide Clean, Readable, Merge, Empty, Conforms, Reached, Spoils;
    EmptyIsGood(s, budget);
    match op
    case ParseFrom(i, bs) => ReachedKeeps(s, Empty(s), bs, budget, st1[i]);
    case MergeParse(i, bs) => ReachedKeeps(s, st[i], bs, budget, st1[i]);
    case MergeFrom(i, j) => MergeKeeps(s, st[i], st[j], budget);
    case CopyFrom(i, j) => MergeKeeps(s, Empty(s), st[j], budget);
    case Set(i, k, v) => SetKeeps(s, st[i], k, v, budget);
    case _ =>
  }

  lemma {:induction false} ReachedKeeps(s: Schema, m: Msg, bs: bytes, budget: nat, w: Msg)
    requires Conforms(s, m) && Reached(s, m, bs, budget, w)
    ensures Conforms(s, w) && (Clean(s, m) ==> Clean(s, w))
    ensures Readable(s, m, budget) && !Spoils(s, bs, budget) ==> Readable(s, w, budget)
  {
    ReachedIsClean(s, m, bs, budget, w);
    if Readable(s, m, budget) && !Spoils(s, bs, budget) {
      ReachedIsReadable(s, m, bs, budget, w);
    }
  }

  // ---------------------------------------------------------------- the dispatch invariant

  lemma {:induction false} CleanThroughout(s: Schema, st: Store, ops: seq<Op>, trace: seq<Store>, budget: nat, t: nat)
    requires Held(s, st) && AllClean(s, st) && AllLegal(s, |st|, ops)
    requires Execution(s, st, ops, trace, budget) && t < |ops|
    ensures |trace[t]| == |st| && Held(s, trace[t]) && AllClean(s, trace[t])
    decreases t
  {
    StepKeeps(s, st, ops[0], trace[0], budget);
    if t > 0 {
      CleanThroughout(s, trace[0], ops[1..], trace[1..], budget, t - 1);
    }
  }

  /** The dispatch invariant over all runs: at no moment does any message hold an unknown field
      whose number and wire type are those of a known one, at any level, not even a message whose
      parse has failed or one made from it. */
  lemma {:induction false} RunsStayClean(s: Schema, n: nat, ops: seq<Op>, trace: seq<Store>, budget: nat,
                                         t: nat, i: nat)
    requires AllLegal(s, n, ops) && Execution(s, Start(s, n), ops, trace, budget) && t < |ops| && i < n
    ensures |trace[t]| == n && Conforms(s, trace[t][i]) && Clean(s, trace[t][i])
  {
    EmptyIsGood(s, budget);
    CleanThroughout(s, Start(s, n), ops, trace, budget, t);
  }

  // ---------------------------------------------------------------- strings and nesting

  ghost predicate ReadableThroughout(s: Schema, trace: seq<Store>, budget: nat) {
    forall t :: 0 <= t < |trace| ==> Held(s, trace[t]) && StoreReadable(s, trace[t], budget)
  }

  lemma {:induction false} HarmlessKeeps(s: Schema, st: Store, ops: seq<Op>, trace: seq<Store>, budget: nat)
    requires Held(s, st) && StoreReadable(s, st, budget) && AllLegal(s, |st|, ops)
    requires Execution(s, st, ops, trace, budget) && AllHarmless(s, |st|, ops, budget)
    ensures ReadableThroughout(s, trace, budget)
    decreases |ops|
  {
    hide Step, Harmless, Legal, Held, StoreReadable;
    if ops != [] {
      StepKeeps(s, st, ops[0], trace[0], budget);
      HarmlessKeeps(s, trace[0], ops[1..], trace[1..], budget);
      assert forall t :: 1 <= t < |trace| ==> trace[t] == trace[1..][t - 1];
    }
  }

  lemma {:induction false} SomeStep(s: Schema, st: Store, op: Op, budget: nat) returns (st1: Store)
    requires Held(s, st) && Legal(s, |st|, op)
    ensures |st1| == |st| && Held(s, st1) && Step(s, st, op, st1, budget)
  {
    hide Merge, Empty, Reached;
    match op {
      case ParseFrom(i, bs) => st1 := st[i := AfterParse(s, Empty(s), bs, budget)];
      case MergeParse(i, bs) => st1 := st[i := AfterParse(s, st[i], bs, budget)];
      case MergeFrom(i, j) => st1 := st[i := Merge(s, st[i], st[j])];
      case CopyFrom(i, j) => st1 := if i == j then st else st[i := Merge(s, Empty(s), st[j])];
      case Clear(i) => st1 := st[i := Empty(s)];
      case Swap(i, j) => st1 := st[i := st[j]][j := st[i]];
      case Set(i, k, v) => st1 := st[i := st[i].(vals := st[i].vals[k := v])];
    }
    StepKeeps(s, st, op, st1, budget);
  }

  lemma {:induction false} SpoilingStep(s: Schema, st: Store, op: Op, budget: nat) returns (st1: Store)
    requires Held(s, st) && Legal(s, |st|, op) && !Harmless(s, |st|, op, budget)
    ensures |st1| == |st| && Held(s, st1) && Step(s, st, op, st1, budget) && !StoreReadable(s, st1, budget)
  {
    hide Readable, Empty, Reached, Spoils;
    match op {
      case ParseFrom(i, bs) =>
        var w := SpoiledMessage(s, Empty(s), bs, budget);
        st1 := st[i := w];
      case MergeParse(i, bs) =>
        var w := SpoiledMessage(s, st[i], bs, budget);
        st1 := st[i := w];
      case Set(i, k, v) =>
        SetKeeps(s, st[i], k, v, budget);
        st1 := st[i := st[i].(vals := st[i].vals[k := v])];
    }
    assert !Readable(s, st1[op.i], budget);
  }

  lemma {:induction false} SomeExecution(s: Schema, st: Store, ops: seq<Op>, budget: nat) returns (trace: seq<Store>)
    requires Held(s, st) && AllLegal(s, |st|, ops)
    ensures Execution(s, st, ops, trace, budget)
    decreases |ops|
  {
    hide Step, Legal, Held;
    trace := [];
    if ops != [] {
      var st1 := SomeStep(s, st, ops[0], budget);
      var rest := SomeExecution(s, st1, ops[1..], budget);
      trace := [st1] + rest;
    }
  }

  lemma {:induction false} SpoilingExecution(s: Schema, st: Store, ops: seq<Op>, budget: nat)
    returns (trace: seq<Store>)
    requires Held(s, st) && AllLegal(s, |st|, ops) && !AllHarmless(s, |st|, ops, budget)
    ensures Execution(s, st, ops, trace, budget) && !ReadableThroughout(s, trace, budget)
    decreases |ops|
  {
    hide Step, Legal, Held, StoreReadable, Harmless;
    if Harmless(s, |st|, ops[0], budget) {
      var st1 := SomeStep(s, st, ops[0], budget);
      assert forall t :: 1 <= t < |ops| ==> ops[t] == ops[1..][t - 1];
      var rest := SpoilingExecution(s, st1, ops[1..], budget);
      trace := [st1] + rest;
      assert forall t :: 0 <= t < |rest| ==> rest[t] == trace[t + 1];
    } else {
      var st1 := SpoilingStep(s, st, ops[0], budget);
      var rest := SomeExecution(s, st1, ops[1..], budget);
      trace := [st1] + rest;
      assert trace[0] == st1;
    }
  }

  /** In every possible run of these operations from cleared messages every string stays valid and
      all nesting within the limit, at every moment and in every message, exactly when every
      operation is harmless by itself. */
  lemma {:induction false} RunsStayReadableExactly(s: Schema, n: nat, ops: seq<Op>, budget: nat)
    requires AllLegal(s, n, ops)
    ensures (forall trace :: Execution(s, Start(s, n), ops, trace, budget) ==> ReadableThroughout(s, trace, budget))
       <==> AllHarmless(s, n, ops, budget)
  {
    if AllHarmless(s, n, ops, budget) {
      EmptyIsGood(s, budget);
      forall trace | Execution(s, Start(s, n), ops, trace, budget) ensures ReadableThroughout(s, trace, budget) {
        HarmlessKeeps(s, Start(s, n), ops, trace, budget);
      }
    } else {
      var trace := SpoilingExecution(s, Start(s, n), ops, budget);
    }
  }

  /** Every message of every run, at every moment, survives serializing and parsing exactly when its
      strings are valid and its nesting fits, and always does in a harmless run. */
  lemma {:induction false} ReachableRoundTrip(s: Schema, n: nat, ops: seq<Op>, trace: seq<Store>, budget: nat,
                                              t: nat, i: nat)
    requires WellFormed(s) && AllLegal(s, n, ops) && Execution(s, Start(s, n), ops, trace, budget)
    requires t < |ops| && i < n
    ensures |trace[t]| == n && Conforms(s, trace[t][i])
    ensures |Serialize(s, trace[t][i])| < TWO_TO_THE_31 ==>
              && SurvivesIfReadable(s, trace[t][i], budget)
              && (AllHarmless(s, n, ops, budget) ==> Survives(s, trace[t][i], budget))
  {
    RunsStayClean(s, n, ops, trace, budget, t, i);
    hide Parse, Readable, Merge, Serialize, Empty;
    var m := trace[t][i];
    if |Serialize(s, m)| < TWO_TO_THE_31 {
      SerializeThenParse(s, Empty(s), m, budget);
      MergeUnits(s, m);
    }
    if AllHarmless(s, n, ops, budget) {
      StartReadable(s, n, budget);
      HarmlessKeeps(s, Start(s, n), ops, trace, budget);
      assert StoreReadable(s, trace[t], budget);
    }
  }

  ghost predicate Survives(s: Schema, m: Msg, budget: nat)
    requires Conforms(s, m)
  {
    Parse(s, Empty(s), Serialize(s, m), budget) == Some(m)
  }

  /** Its serialization is read back as itself when it is readable, and is refused when it is not. */
  ghost predicate SurvivesIfReadable(s: Schema, m: Msg, budget: nat)
    requires Conforms(s, m)
  {
    if Readable(s, m, budget) then Survives(s, m, budget)
    else Parse(s, Empty(s), Serialize(s, m), budget) == None
  }

  lemma {:induction false} StartReadable(s: Schema, n: nat, budget: nat)
    ensures StoreReadable(s, Start(s, n), budget)
  {
    EmptyIsGood(s, budget);
  }
}

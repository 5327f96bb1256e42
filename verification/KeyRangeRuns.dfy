/** The operations of Runs carried out by the KeyRange objects themselves: what the code does is one of
    the runs that Runs speaks of. */
module KeyRangeRuns {
  import opened Wire
  import opened Codec
  import opened MergeLaws
  import opened ParseSteps
  import opened RoundTrip
  import opened Stability
  import opened Streams
  import opened KeyRangeMessage
  import opened Runs

  /** A parse of a whole input, after Clear or on top of what is there. */
  method PerformParse(k: KeyRange, bs: bytes, clear: bool, recursionLimit: nat)
    modifies k
    ensures Reached(KEY_RANGE, if clear then Empty(KEY_RANGE) else old(k.Model()), bs, recursionLimit, k.Model())
  {
    hide MayLeave, Conforms;
    if clear {
      k.Clear();
    }
    var input := new CodedInputStream(bs, recursionLimit);
    var ok := k.MergePartialFromCodedStream(input);
  }

  lemma {:induction false} OneChanged(ks: seq<KeyRange>, ms: seq<Msg>, i: nat)
    requires Distinct(ks) && i < |ks| == |ms|
    requires forall j :: 0 <= j < |ks| && j != i ==> ks[j].Model() == ms[j]
    ensures Models(ks) == ms[i := ks[i].Model()]
  {
    ModelsAt(ks);
    hide Conforms, Models;
  }

  method Perform(ks: seq<KeyRange>, op: Op, recursionLimit: nat)
    requires Distinct(ks) && Held(KEY_RANGE, Models(ks)) && Legal(KEY_RANGE, |ks|, op)
    modifies ks
    ensures |Models(ks)| == |ks| && Held(KEY_RANGE, Models(ks))
    ensures Step(KEY_RANGE, old(Models(ks)), op, Models(ks), recursionLimit)
  {
    ghost var ms := Models(ks);
    ModelsAt(ks);
    hide Conforms, Models, Merge, Reached, Clean, MergePartial;
    match op {
      case ParseFrom(i, bs) =>
        PerformParse(ks[i], bs, true, recursionLimit);
        OneChanged(ks, ms, i);
      case MergeParse(i, bs) =>
        PerformParse(ks[i], bs, false, recursionLimit);
        OneChanged(ks, ms, i);
      case MergeFrom(i, j) =>
        assert ks[i] != ks[j];
        ks[i].MergeFrom(ks[j]);
        OneChanged(ks, ms, i);
      case CopyFrom(i, j) =>
        if i != j {
          assert ks[i] != ks[j];
        }
        ks[i].CopyFrom(ks[j]);
        OneChanged(ks, ms, i);
        MergeUnits(KEY_RANGE, ms[j]);
      case Clear(i) =>
        ks[i].Clear();
        OneChanged(ks, ms, i);
      case Swap(i, j) =>
        PerformSwap(ks, i, j);
      case Set(i, k, v) =>
        PerformSet(ks, i, k, v);
    }
    ModelsAt(ks);
  }

  method PerformSwap(ks: seq<KeyRange>, i: nat, j: nat)
    requires Distinct(ks) && i < |ks| && j < |ks|
    modifies ks[i], ks[j]
    ensures Models(ks) == old(Models(ks))[i := old(Models(ks))[j]][j := old(Models(ks))[i]]
  {
    ghost var ms := Models(ks);
    ModelsAt(ks);
    ks[i].Swap(ks[j]);
    ModelsAt(ks);
    hide Models, Conforms;
    forall l | 0 <= l < |ks| ensures Models(ks)[l] == ms[i := ms[j]][j := ms[i]][l] {
      assert l != i ==> ks[l] != ks[i];
      assert l != j ==> ks[l] != ks[j];
    }
  }

  method PerformSet(ks: seq<KeyRange>, i: nat, k: nat, v: Value)
    requires Distinct(ks) && i < |ks| && k < 2 && v.Blob?
    modifies ks[i]
    ensures |old(Models(ks))[i].vals| == 2
    ensures Models(ks)
         == old(Models(ks))[i := old(Models(ks))[i].(vals := old(Models(ks))[i].vals[k := v])]
  {
    ghost var ms := Models(ks);
    ModelsAt(ks);
    if k == 0 {
      ks[i].set_start(v.b);
    } else {
      ks[i].set_end(v.b);
    }
    assert ks[i].Model().vals == ms[i].vals[k := v];
    OneChanged(ks, ms, i);
  }

  /** A whole run on objects is an execution. */
  method Execute(ks: seq<KeyRange>, ops: seq<Op>, recursionLimit: nat) returns (ghost trace: seq<Store>)
    requires Distinct(ks) && Held(KEY_RANGE, Models(ks)) && AllLegal(KEY_RANGE, |ks|, ops)
    modifies ks
    ensures Execution(KEY_RANGE, old(Models(ks)), ops, trace, recursionLimit)
    ensures Models(ks) == if ops == [] then old(Models(ks)) else trace[|ops| - 1]
    decreases |ops|
  {
    hide Step, Held, Legal;
    trace := [];
    if ops != [] {
      Perform(ks, ops[0], recursionLimit);
      ghost var first := Models(ks);
      assert forall t :: 1 <= t < |ops| ==> ops[t] == ops[1..][t - 1];
      var rest := Execute(ks, ops[1..], recursionLimit);
      trace := [first] + rest;
    }
  }
}

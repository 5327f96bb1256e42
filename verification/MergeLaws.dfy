/** MergeFrom makes the messages of a schema a monoid with the cleared message as unit. */
module MergeLaws {
  import opened Wire
  import opened Codec

  function OrEmpty(sub: Schema, m: Option<Msg>): (r: Msg)
    requires m.Some? ==> Conforms(sub, m.value)
    ensures Conforms(sub, r)
  {
    if m.None? then Empty(sub) else m.value
  }

  lemma {:induction false} MergeValueUnits(t: FieldType, v: Value)
    requires ValueConforms(t, v)
    ensures MergeValue(t, DefaultValue(t), v) == v
    ensures MergeValue(t, v, DefaultValue(t)) == v
    decreases t, 0
  {
    match t
    case Sub(sub) =>
      if v.m.Some? {
        MergeUnits(sub, v.m.value);
      }
    case RepStr => assert [] + v.bs == v.bs && v.bs + [] == v.bs;
    case RepSub(_) => assert [] + v.ms == v.ms && v.ms + [] == v.ms;
    case _ =>
  }

  /** Merging into a cleared message copies; merging a cleared message changes nothing. */
  lemma {:induction false} MergeUnits(s: Schema, m: Msg)
    requires Conforms(s, m)
    ensures Merge(s, Empty(s), m) == m
    ensures Merge(s, m, Empty(s)) == m
    decreases s, 1
  {
    forall i | 0 <= i < |s.fields|
      ensures MergeValue(s.fields[i].typ, DefaultValue(s.fields[i].typ), m.vals[i]) == m.vals[i]
      ensures MergeValue(s.fields[i].typ, m.vals[i], DefaultValue(s.fields[i].typ)) == m.vals[i]
    {
      MergeValueUnits(s.fields[i].typ, m.vals[i]);
    }
    assert Merge(s, Empty(s), m).vals == m.vals && Merge(s, m, Empty(s)).vals == m.vals;
    assert [] + m.unk == m.unk && m.unk + [] == m.unk;
  }

  lemma {:induction false} MergeValueAssociative(t: FieldType, x: Value, y: Value, z: Value)
    requires ValueConforms(t, x) && ValueConforms(t, y) && ValueConforms(t, z)
    ensures MergeValue(t, MergeValue(t, x, y), z) == MergeValue(t, x, MergeValue(t, y, z))
    decreases t, 0
  {
    match t
    case Sub(sub) =>
      if z.m.Some? {
        var x1 := OrEmpty(sub, x.m);
        if y.m.Some? {
          MergeAssociative(sub, x1, y.m.value, z.m.value);
        } else {
          MergeUnits(sub, z.m.value);
        }
      }
    case RepStr => assert x.bs + y.bs + z.bs == x.bs + (y.bs + z.bs);
    case RepSub(_) => assert x.ms + y.ms + z.ms == x.ms + (y.ms + z.ms);
    case _ =>
  }

  /** Merging is associative, through optional sub-messages, repeated and unknown fields. */
  lemma {:induction false} MergeAssociative(s: Schema, x: Msg, y: Msg, z: Msg)
    requires Conforms(s, x) && Conforms(s, y) && Conforms(s, z)
    ensures Merge(s, Merge(s, x, y), z) == Merge(s, x, Merge(s, y, z))
    decreases s, 1
  {
    var l, r := Merge(s, Merge(s, x, y), z), Merge(s, x, Merge(s, y, z));
    forall i | 0 <= i < |s.fields| ensures l.vals[i] == r.vals[i] {
      MergeValueAssociative(s.fields[i].typ, x.vals[i], y.vals[i], z.vals[i]);
    }
    assert l.vals == r.vals;
    assert l.unk == r.unk;
  }
}

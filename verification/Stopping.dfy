/** Where the parse loop stops: what it has consumed by then, and what it has not looked past. */
module Stopping {
  import opened Wire
  import opened WireLaws
  import opened Codec
  import opened Parsing

  // ---------------------------------------------------------------- readers do not look ahead

  lemma {:induction false} DecodeVarintShrinks(bs: bytes, fuel: nat, more: bytes)
    requires DecodeVarint(bs + more, fuel).Some? && |DecodeVarint(bs + more, fuel).value.1| >= |more|
    ensures DecodeVarint(bs, fuel).Some?
    decreases fuel
  {
    assert bs != [] by {
      assert [] + more == more;
    }
    assert (bs + more)[1..] == bs[1..] + more;
    if bs[0] >= 0x80 {
      DecodeVarintShrinks(bs[1..], fuel - 1, more);
    }
  }

  lemma {:induction false} ReadFixedShrinks(bs: bytes, width: nat, more: bytes)
    requires ReadFixed(bs + more, width).Some? && |ReadFixed(bs + more, width).value.1| >= |more|
    ensures ReadFixed(bs, width).Some?
    decreases width
  {
    if width > 0 {
      assert (bs + more)[1..] == bs[1..] + more;
      ReadFixedShrinks(bs[1..], width - 1, more);
    }
  }

  lemma {:induction false} ReadDelimitedShrinks(bs: bytes, more: bytes)
    requires ReadDelimited(bs + more).Some? && |ReadDelimited(bs + more).value.1| >= |more|
    ensures ReadDelimited(bs).Some?
  {
    DecodeVarintShrinks(bs, 10, more);
    DecodeVarintExtends(bs, 10, more);
  }

  lemma {:induction false} ReadTagShrinks(bs: bytes, more: bytes)
    requires ReadTag(bs + more).0 != 0 && |ReadTag(bs + more).1| >= |more|
    ensures ReadTag(bs).0 == ReadTag(bs + more).0 && ReadTag(bs + more).1 == ReadTag(bs).1 + more
  {
    DecodeVarintShrinks(bs, 10, more);
    DecodeVarintExtends(bs, 10, more);
  }

  lemma {:induction false} ReadRecordShrinks(tag: u32, bs: bytes, budget: nat, more: bytes)
    requires ReadRecord(tag, bs + more, budget).Some? && |ReadRecord(tag, bs + more, budget).value.1| >= |more|
    ensures ReadRecord(tag, bs, budget).Some?
    decreases |bs|, 1
  {
    if tag % 8 == WIRETYPE_VARINT {
      DecodeVarintShrinks(bs, 10, more);
    } else if tag % 8 == WIRETYPE_FIXED64 {
      ReadFixedShrinks(bs, 8, more);
    } else if tag % 8 == WIRETYPE_LENGTH_DELIMITED {
      ReadDelimitedShrinks(bs, more);
    } else if tag % 8 == WIRETYPE_START_GROUP {
      ReadGroupShrinks(tag / 8, bs, budget - 1, more);
    } else {
      ReadFixedShrinks(bs, 4, more);
    }
  }

  lemma {:induction false} ReadGroupShrinks(num: FieldNumber, bs: bytes, budget: nat, more: bytes)
    requires ReadGroup(num, bs + more, budget).Some? && |ReadGroup(num, bs + more, budget).value.1| >= |more|
    ensures ReadGroup(num, bs, budget).Some?
    decreases |bs|, 0
  {
    var (tag, rest) := ReadTag(bs + more);
    if tag % 8 == WIRETYPE_END_GROUP {
      ReadTagShrinks(bs, more);
    } else {
      var rest1 := ReadRecord(tag, rest, budget).value.1;
      assert |ReadGroup(num, rest1, budget).value.1| <= |rest1| <= |rest|;
      ReadTagShrinks(bs, more);
      ReadRecordShrinks(tag, ReadTag(bs).1, budget, more);
      ReadRecordExtends(tag, ReadTag(bs).1, budget, more);
      ReadGroupShrinks(num, ReadRecord(tag, ReadTag(bs).1, budget).value.1, budget, more);
    }
  }

  /** A tag and its record are decided by the bytes they consume. */
  lemma {:induction false} OneRecord(bs: bytes, budget: nat, r: Record, rest: bytes) returns (used: bytes)
    requires ReadTag(bs).0 != 0 && ReadRecord(ReadTag(bs).0, ReadTag(bs).1, budget) == Some((r, rest))
    ensures bs == used + rest && used != [] && Lex(used, budget) == Some([r])
  {
    var n := |bs| - |rest|;
    used := bs[..n];
    var more := bs[n..];
    assert used + more == bs;
    ReadTagShrinks(used, more);
    ReadRecordShrinks(ReadTag(bs).0, ReadTag(used).1, budget, more);
    ReadRecordExtends(ReadTag(bs).0, ReadTag(used).1, budget, more);
    assert Lex([], budget) == Some([]);
    assert [r] + [] == [r];
  }

  // ---------------------------------------------------------------- the loop

  /** `pre` is a sequence of complete records that takes `m` to `m1`, and behind it stands a zero
      tag, or a varint that cannot be read, or nothing. */
  ghost predicate SplitsAt(s: Schema, m: Msg, bs: bytes, budget: nat, m1: Msg, atEnd: bool, pre: bytes, post: bytes)
    requires Conforms(s, m)
  {
    && bs == pre + post
    && Lex(pre, budget).Some? && Fold(s, m, Lex(pre, budget).value, budget) == Some(m1)
    && ReadTag(post).0 == 0 && (atEnd <==> post == [])
  }

  lemma {:induction false} StopSplits(s: Schema, m: Msg, bs: bytes, budget: nat) returns (pre: bytes, post: bytes)
    requires Conforms(s, m) && MergePartial(s, m, bs, budget).Stopped?
    ensures var o := MergePartial(s, m, bs, budget);
            SplitsAt(s, m, bs, budget, o.msg, o.atEnd, pre, post)
    decreases |bs|
  {
    var (tag, rest) := ReadTag(bs);
    if tag == 0 {
      pre, post := [], bs;
      assert [] + bs == bs;
    } else {
      var (r, rest1) := ReadRecord(tag, rest, budget).value;
      var used := OneRecord(bs, budget, r, rest1);
      var m1 := Apply(s, m, r, budget).value;
      hide Lex, ReadRecord, ReadTag, Apply, Conforms;
      var pre1, post1 := StopSplits(s, m1, rest1, budget);
      pre, post := used + pre1, post1;
      var o := MergePartial(s, m1, rest1, budget);
      SplitsLater(s, m, m1, r, used, rest1, budget, o.msg, o.atEnd, pre1, post1);
    }
  }

  lemma {:induction false} SplitsLater(s: Schema, m: Msg, m1: Msg, r: Record, used: bytes, rest: bytes, budget: nat,
                                       end: Msg, atEnd: bool, pre: bytes, post: bytes)
    requires Conforms(s, m) && Conforms(s, m1) && Lex(used, budget) == Some([r])
    requires Apply(s, m, r, budget) == Some(m1) && SplitsAt(s, m1, rest, budget, end, atEnd, pre, post)
    ensures SplitsAt(s, m, used + rest, budget, end, atEnd, used + pre, post)
  {
    hide Lex, ReadRecord, ReadTag, Apply, Conforms;
    LexConcat(used, pre, budget);
    var rs := Lex(pre, budget).value;
    assert ([r] + rs)[1..] == rs && ([r] + rs)[0] == r;
    assert used + (pre + post) == used + pre + post;
  }

  lemma {:induction false} RunsThrough(s: Schema, m: Msg, pre: bytes, post: bytes, budget: nat)
    requires Conforms(s, m) && Lex(pre, budget).Some? && Fold(s, m, Lex(pre, budget).value, budget).Some?
    ensures MergePartial(s, m, pre + post, budget)
         == MergePartial(s, Fold(s, m, Lex(pre, budget).value, budget).value, post, budget)
    decreases |pre|
  {
    if pre == [] {
      assert pre + post == post;
    } else {
      ReadTagExtends(pre, post);
      var (tag, rest) := ReadTag(pre);
      ReadRecordExtends(tag, rest, budget, post);
      var (r, rest1) := ReadRecord(tag, rest, budget).value;
      var rs := Lex(rest1, budget).value;
      assert ([r] + rs)[1..] == rs;
      RunsThrough(s, Apply(s, m, r, budget).value, rest1, post, budget);
    }
  }

  /** The parse loop returns true exactly when its input is a sequence of complete records that
      can all be applied, followed by a zero tag or by nothing; it has applied those records, in
      order, and nothing else; and it reports the end of the input only when nothing is left. */
  lemma {:induction false} StopsExactly(s: Schema, m: Msg, bs: bytes, budget: nat, m1: Msg, atEnd: bool)
    requires Conforms(s, m)
    ensures MergePartial(s, m, bs, budget) == Stopped(m1, atEnd)
       <==> exists pre, post :: SplitsAt(s, m, bs, budget, m1, atEnd, pre, post)
  {
    if MergePartial(s, m, bs, budget) == Stopped(m1, atEnd) {
      var pre, post := StopSplits(s, m, bs, budget);
    }
    forall pre, post | SplitsAt(s, m, bs, budget, m1, atEnd, pre, post)
      ensures MergePartial(s, m, bs, budget) == Stopped(m1, atEnd)
    {
      RunsThrough(s, m, pre, post, budget);
    }
  }
}

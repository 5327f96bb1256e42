/** Length prefixes that are taken from a cache: what they do to the output when they are wrong. Both
    the size protocol of whole trees and that of the Request class rest on this. */
module Prefixes {
  import opened Wire
  import opened Streams

  // ---------------------------------------------------------------- outputs that differ early

  /** The two differ at a position they both have, so no continuation can make them equal. */
  ghost predicate Diverge(a: bytes, b: bytes) {
    exists i :: 0 <= i < |a| && i < |b| && a[i] != b[i]
  }

  lemma {:induction false} DivergeAt(a: bytes, b: bytes, i: nat)
    requires i < |a| && i < |b| && a[i] != b[i]
    ensures Diverge(a, b)
  {
  }

  lemma {:induction false} DivergeExtends(a: bytes, b: bytes, x: bytes, y: bytes)
    requires Diverge(a, b)
    ensures Diverge(a + x, b + y)
  {
    var i :| 0 <= i < |a| && i < |b| && a[i] != b[i];
    DivergeAt(a + x, b + y, i);
  }

  lemma {:induction false} DivergeBehind(p: bytes, x: bytes, y: bytes)
    requires Diverge(x, y)
    ensures Diverge(p + x, p + y)
  {
    var i :| 0 <= i < |x| && i < |y| && x[i] != y[i];
    DivergeAt(p + x, p + y, |p| + i);
  }

  lemma {:induction false} VarintsDiverge(a: nat, b: nat)
    requires a != b
    ensures Diverge(EncodeVarint(a), EncodeVarint(b))
  {
    if a >= 0x80 && b >= 0x80 && a % 0x80 == b % 0x80 {
      VarintsDiverge(a / 0x80, b / 0x80);
      DivergeBehind([a % 0x80 + 0x80], EncodeVarint(a / 0x80), EncodeVarint(b / 0x80));
    } else {
      DivergeAt(EncodeVarint(a), EncodeVarint(b), 0);
    }
  }

  /** What is written for a record: the record itself, or its payload or something that differs
      from it early, behind some size. */
  ghost predicate Comparable(w: Written, r: Record) {
    match w
    case Exact(e) => r == e
    case Prefixed(num, _, data) => r.Len? && r.num == num && (data == r.data || Diverge(data, r.data))
  }

  predicate Right(w: Written, r: Record) {
    w.Prefixed? && r.Len? ==> w.size == |r.data| && w.data == r.data
  }

  ghost predicate AllComparable(ws: seq<Written>, rs: seq<Record>) {
    |ws| == |rs| && forall i :: 0 <= i < |ws| ==> Comparable(ws[i], rs[i])
  }

  ghost predicate AllRight(ws: seq<Written>, rs: seq<Record>)
    requires |ws| == |rs|
  {
    forall i :: 0 <= i < |ws| ==> Right(ws[i], rs[i])
  }

  lemma {:induction false} OneCompared(w: Written, r: Record)
    requires Comparable(w, r)
    ensures Right(w, r) ==> BytesOf(w) == Emit(r)
    ensures !Right(w, r) ==> Diverge(BytesOf(w), Emit(r))
  {
    if w.Prefixed? {
      var tag, x, y := EmitTag(w.num, WIRETYPE_LENGTH_DELIMITED), EncodeVarint(w.size), EncodeVarint(|r.data|);
      assert BytesOf(w) == tag + (x + w.data) && Emit(r) == tag + (y + r.data);
      if w.size != |r.data| {
        VarintsDiverge(w.size, |r.data|);
        DivergeExtends(x, y, w.data, r.data);
        DivergeBehind(tag, x + w.data, y + r.data);
      } else if w.data != r.data {
        DivergeBehind(x, w.data, r.data);
        DivergeBehind(tag, x + w.data, y + r.data);
      }
    }
  }

  lemma {:induction false} AllCompared(ws: seq<Written>, rs: seq<Record>)
    requires AllComparable(ws, rs)
    ensures AllRight(ws, rs) ==> AllBytes(ws) == EmitAll(rs)
    ensures !AllRight(ws, rs) ==> Diverge(AllBytes(ws), EmitAll(rs))
  {
    hide BytesOf, Emit, Diverge, Right;
    if ws != [] {
      var w, r := ws[0], rs[0];
      OneCompared(w, r);
      AllCompared(ws[1..], rs[1..]);
      assert AllRight(ws, rs) <==> Right(w, r) && AllRight(ws[1..], rs[1..]) by {
        assert forall i :: 1 <= i < |ws| ==> ws[i] == ws[1..][i - 1] && rs[i] == rs[1..][i - 1];
      }
      if !Right(w, r) {
        DivergeExtends(BytesOf(w), Emit(r), AllBytes(ws[1..]), EmitAll(rs[1..]));
      } else if !AllRight(ws[1..], rs[1..]) {
        DivergeBehind(Emit(r), AllBytes(ws[1..]), EmitAll(rs[1..]));
      }
    }
  }

  lemma {:induction false} ConcatCompared(ws: seq<Written>, rs: seq<Record>, ws1: seq<Written>, rs1: seq<Record>)
    requires AllComparable(ws, rs) && AllComparable(ws1, rs1)
    ensures AllComparable(ws + ws1, rs + rs1)
    ensures AllRight(ws + ws1, rs + rs1) <==> AllRight(ws, rs) && AllRight(ws1, rs1)
  {
    hide Comparable, Right;
    if AllRight(ws + ws1, rs + rs1) {
      assert forall i :: 0 <= i < |ws| ==> (ws + ws1)[i] == ws[i] && (rs + rs1)[i] == rs[i];
      assert forall i :: 0 <= i < |ws1| ==> (ws + ws1)[|ws| + i] == ws1[i] && (rs + rs1)[|ws| + i] == rs1[i];
    }
  }

  lemma {:induction false} EachExact(rs: seq<Record>)
    ensures |AllExact(rs)| == |rs| && forall i :: 0 <= i < |rs| ==> AllExact(rs)[i] == Exact(rs[i])
  {
    if rs != [] {
      EachExact(rs[1..]);
    }
  }

  lemma {:induction false} ExactCompared(rs: seq<Record>)
    ensures AllComparable(AllExact(rs), rs) && AllRight(AllExact(rs), rs)
  {
    EachExact(rs);
    hide AllExact;
  }

  /** The output is the encoding of the intended records exactly when every cached size that was
      written is the length of what follows it: one stale size is enough to spoil it. */
  lemma {:induction false} StaleSizeShows(ws: seq<Written>)
    ensures AllBytes(ws) == EmitAll(AllRecords(ws)) <==> SizesRight(ws)
  {
    RecordsOfEach(ws);
    AllCompared(ws, AllRecords(ws));
  }

  lemma {:induction false} RecordsOfEach(ws: seq<Written>)
    ensures |AllRecords(ws)| == |ws| && forall i :: 0 <= i < |ws| ==> AllRecords(ws)[i] == RecordOf(ws[i])
  {
    if ws != [] {
      RecordsOfEach(ws[1..]);
    }
  }
}

/** UTF-8 validity, by the grammar of section 4 of RFC 3629, and its meaning: a byte string is
    valid exactly when it is the section 3 encoding of some sequence of Unicode scalar values. */
module Utf8 {
  import opened Wire

  type Scalar = c: int | 0 <= c < 0xD800 || 0xE000 <= c < 0x11_0000

  predicate Tail(b: byte) {
    0x80 <= b <= 0xBF
  }

  /** Length of the UTF8-char production that `bs` starts with, or 0 when there is none. */
  function CharLength(bs: bytes): (n: nat)
    ensures n <= 4 && n <= |bs|
  {
    if |bs| >= 1 && bs[0] <= 0x7F then 1
    else if |bs| >= 2 && 0xC2 <= bs[0] <= 0xDF && Tail(bs[1]) then 2
    else if |bs| >= 3 && Tail(bs[1]) && Tail(bs[2]) &&
            (|| (bs[0] == 0xE0 && 0xA0 <= bs[1])
             || 0xE1 <= bs[0] <= 0xEC
             || (bs[0] == 0xED && bs[1] <= 0x9F)
             || 0xEE <= bs[0] <= 0xEF) then 3
    else if |bs| >= 4 && Tail(bs[1]) && Tail(bs[2]) && Tail(bs[3]) &&
            (|| (bs[0] == 0xF0 && 0x90 <= bs[1])
             || 0xF1 <= bs[0] <= 0xF3
             || (bs[0] == 0xF4 && bs[1] <= 0x8F)) then 4
    else 0
  }

  predicate Valid(bs: bytes)
    decreases |bs|
  {
    bs == [] || (CharLength(bs) > 0 && Valid(bs[CharLength(bs)..]))
  }

  function EncodeScalar(c: Scalar): (bs: bytes)
    ensures 1 <= |bs| <= 4
  {
    if c < 0x80 then [c]
    else if c < 0x800 then [0xC0 + c / 0x40, 0x80 + c % 0x40]
    else if c < 0x1_0000 then [0xE0 + c / 0x1000, 0x80 + c / 0x40 % 0x40, 0x80 + c % 0x40]
    else [0xF0 + c / 0x4_0000, 0x80 + c / 0x1000 % 0x40, 0x80 + c / 0x40 % 0x40, 0x80 + c % 0x40]
  }

  function EncodeScalars(cs: seq<Scalar>): bytes {
    if cs == [] then [] else EncodeScalar(cs[0]) + EncodeScalars(cs[1..])
  }

  function DecodeScalar(bs: bytes): (c: Scalar)
    requires CharLength(bs) > 0
  {
    var o: seq<int> := bs;
    if o[0] <= 0x7F then o[0]
    else if o[0] <= 0xDF then (o[0] - 0xC0) * 0x40 + (o[1] - 0x80)
    else if o[0] <= 0xEF then (o[0] - 0xE0) * 0x1000 + (o[1] - 0x80) * 0x40 + (o[2] - 0x80)
    else (o[0] - 0xF0) * 0x4_0000 + (o[1] - 0x80) * 0x1000 + (o[2] - 0x80) * 0x40 + (o[3] - 0x80)
  }

  lemma {:induction false} SplitDigit(hi: nat, lo: nat)
    requires lo < 0x40
    ensures (hi * 0x40 + lo) / 0x40 == hi && (hi * 0x40 + lo) % 0x40 == lo
  {
  }

  lemma {:induction false} EncodeDecodeLong(bs: bytes)
    requires CharLength(bs) == 4
    ensures EncodeScalar(DecodeScalar(bs)) == bs[..4]
  {
    var o: seq<int> := bs;
    var c := DecodeScalar(bs);
    ThreeDigits((o[0] - 0xF0) * 0x40 + (o[1] - 0x80), o[2] - 0x80, o[3] - 0x80);
    SplitDigit(o[0] - 0xF0, o[1] - 0x80);
    assert c / 0x4_0000 == c / 0x1000 / 0x40;
  }

  lemma {:induction false} EncodeDecodeScalar(bs: bytes)
    requires CharLength(bs) > 0
    ensures EncodeScalar(DecodeScalar(bs)) == bs[..CharLength(bs)]
  {
    var o: seq<int> := bs;
    if o[0] <= 0x7F {
    } else if o[0] <= 0xDF {
      SplitDigit(o[0] - 0xC0, o[1] - 0x80);
    } else if o[0] <= 0xEF {
      ThreeDigits(o[0] - 0xE0, o[1] - 0x80, o[2] - 0x80);
    } else {
      EncodeDecodeLong(bs);
    }
  }

  lemma {:induction false} ThreeDigits(a: nat, b: nat, d: nat)
    requires b < 0x40 && d < 0x40
    ensures var c := a * 0x1000 + b * 0x40 + d;
            c / 0x1000 == a && c / 0x40 % 0x40 == b && c % 0x40 == d
  {
    SplitDigit(a * 0x40 + b, d);
    SplitDigit(a, b);
  }

  lemma {:induction false} ScalarIsChar(c: Scalar, rest: bytes)
    ensures CharLength(EncodeScalar(c) + rest) == |EncodeScalar(c)|
  {
    var bs := EncodeScalar(c) + rest;
    assert bs[..|EncodeScalar(c)|] == EncodeScalar(c);
    assert forall i :: 0 <= i < |EncodeScalar(c)| ==> bs[i] == EncodeScalar(c)[i];
  }

  lemma {:induction false} ScalarsAreValid(cs: seq<Scalar>)
    ensures Valid(EncodeScalars(cs))
  {
    if cs != [] {
      ScalarIsChar(cs[0], EncodeScalars(cs[1..]));
      var bs := EncodeScalars(cs);
      assert bs[CharLength(bs)..] == EncodeScalars(cs[1..]);
      ScalarsAreValid(cs[1..]);
    }
  }

  lemma {:induction false} ValidDecodes(bs: bytes) returns (cs: seq<Scalar>)
    requires Valid(bs)
    ensures EncodeScalars(cs) == bs
    decreases |bs|
  {
    if bs == [] {
      cs := [];
    } else {
      var n := CharLength(bs);
      var rest := ValidDecodes(bs[n..]);
      EncodeDecodeScalar(bs);
      cs := [DecodeScalar(bs)] + rest;
      assert bs == bs[..n] + bs[n..];
    }
  }

  /** The grammar accepts exactly the encodings of scalar-value sequences: no surrogates, no
      overlong forms, nothing above U+10FFFF. */
  lemma {:induction false} ValidIffEncoding(bs: bytes)
    ensures Valid(bs) <==> exists cs: seq<Scalar> :: EncodeScalars(cs) == bs
  {
    if Valid(bs) {
      var cs := ValidDecodes(bs);
    }
    forall cs: seq<Scalar> | EncodeScalars(cs) == bs ensures Valid(bs) {
      ScalarsAreValid(cs);
    }
  }

  // ---------------------------------------------------------------- in bits and bytes

  /** Section 3 of RFC 3629: which bits of the scalar value go into which byte. */
  lemma {:induction false} ScalarBits(a: nat, b: nat, d: nat, e: nat)
    requires a < 0x40 && b < 0x40 && d < 0x40 && e < 0x40
    ensures e < 0x80 ==> EncodeScalar(e) == [e]
    ensures 2 <= d < 0x20 ==> EncodeScalar(d * 0x40 + e) == [0xC0 + d, 0x80 + e]
    ensures b < 0x10 && 0x800 <= b * 0x1000 + d * 0x40 + e && !(0xD800 <= b * 0x1000 + d * 0x40 + e < 0xE000) ==>
              EncodeScalar(b * 0x1000 + d * 0x40 + e) == [0xE0 + b, 0x80 + d, 0x80 + e]
    ensures a < 8 && 0x1_0000 <= a * 0x4_0000 + b * 0x1000 + d * 0x40 + e < 0x11_0000 ==>
              EncodeScalar(a * 0x4_0000 + b * 0x1000 + d * 0x40 + e) == [0xF0 + a, 0x80 + b, 0x80 + d, 0x80 + e]
  {
    SplitDigit(d, e);
    ThreeDigits(b, d, e);
    ThreeDigits(a * 0x40 + b, d, e);
    SplitDigit(a, b);
    var c := a * 0x4_0000 + b * 0x1000 + d * 0x40 + e;
    assert c == (a * 0x40 + b) * 0x1000 + d * 0x40 + e;
    assert c / 0x1000 == a * 0x40 + b && c / 0x4_0000 == c / 0x1000 / 0x40;
  }

  lemma {:induction false} CharBytes(bs: bytes, i: nat)
    requires CharLength(bs) > i
    ensures bs[i] != 0xC0 && bs[i] != 0xC1 && bs[i] < 0xF5
  {
  }

  /** The octets C0, C1 and F5 to FF never appear. */
  lemma {:induction false} NeverInUtf8(bs: bytes, i: nat)
    requires Valid(bs) && i < |bs|
    ensures bs[i] != 0xC0 && bs[i] != 0xC1 && bs[i] < 0xF5
    decreases |bs|
  {
    var n := CharLength(bs);
    if i < n {
      CharBytes(bs, i);
    } else {
      NeverInUtf8(bs[n..], i - n);
    }
  }

  /** The first and last examples of section 7 of RFC 3629. */
  lemma {:induction false} PublishedExamples()
    ensures EncodeScalar(0x41) == [0x41] && EncodeScalar(0x2262) == [0xE2, 0x89, 0xA2]
    ensures EncodeScalar(0x391) == [0xCE, 0x91] && EncodeScalar(0xFEFF) == [0xEF, 0xBB, 0xBF]
    ensures EncodeScalar(0x2_33B4) == [0xF0, 0xA3, 0x8E, 0xB4]
  {
  }
}

/**
 * The UTF-8 encoder and decoder: one to six bytes for code points up to 31 bits, as in section 2 of RFC 2279.
 */
module Utf8 {
  /** A byte, in a word as the computations use it. */
  type Byte = b: bv32 | b < 0x100

  const BYTE_X_FLAG: bv32 := 0x80
  const BYTE_2_FLAG: bv32 := 0xC0
  const BYTE_3_FLAG: bv32 := 0xE0
  const BYTE_4_FLAG: bv32 := 0xF0
  const BYTE_5_FLAG: bv32 := 0xF8
  const BYTE_6_FLAG: bv32 := 0xFC
  const UTF8_1_MAX: bv32 := 0x7F
  const UTF8_2_MAX: bv32 := 0x7FF
  const UTF8_3_MAX: bv32 := 0xFFFF
  const UTF8_4_MAX: bv32 := 0x10_FFFF
  const UTF8_5_MAX: bv32 := 0x3FF_FFFF
  const UTF8_6_MAX: bv32 := 0x7FFF_FFFF

  /** A continuation byte with the lowest six bits. */
  function Trail(bits: bv32): Byte {
    ((bits & 0x3F) | BYTE_X_FLAG)
  }

  /** The first of two to six bytes: a mark for the length, and the highest bits. */
  function Lead2(p: bv32): Byte { ((p >> 6) & 0x1F) | BYTE_2_FLAG }
  function Lead3(p: bv32): Byte { ((p >> 12) & 0x0F) | BYTE_3_FLAG }
  function Lead4(p: bv32): Byte { ((p >> 18) & 0x07) | BYTE_4_FLAG }
  function Lead5(p: bv32): Byte { ((p >> 24) & 0x03) | BYTE_5_FLAG }
  function Lead6(p: bv32): Byte { ((p >> 30) & 0x01) | BYTE_6_FLAG }

  /** The encoding of a code point; nothing for more than 31 bits. */
  function CodepointToUTF8(p: bv32): seq<Byte> {
    if p <= UTF8_1_MAX then [p]
    else if p <= UTF8_2_MAX then [Lead2(p), Trail(p)]
    else if p <= UTF8_3_MAX then [Lead3(p), Trail(p >> 6), Trail(p)]
    else if p <= UTF8_4_MAX then [Lead4(p), Trail(p >> 12), Trail(p >> 6), Trail(p)]
    else if p <= UTF8_5_MAX then [Lead5(p), Trail(p >> 18), Trail(p >> 12), Trail(p >> 6), Trail(p)]
    else if p <= UTF8_6_MAX then [Lead6(p), Trail(p >> 24), Trail(p >> 18), Trail(p >> 12), Trail(p >> 6), Trail(p)]
    else []
  }

  /** How many bytes the first byte of a code point announces. */
  function Announced(b: Byte): (n: nat)
    ensures 1 <= n <= 6
  {
    if b < BYTE_2_FLAG then 1 else if b < BYTE_3_FLAG then 2 else if b < BYTE_4_FLAG then 3
    else if b < BYTE_5_FLAG then 4 else if b < BYTE_6_FLAG then 5 else 6
  }

  function Low6(b: Byte): bv32 {
    b & 0x3F
  }

  function Value2(b1: Byte, b2: Byte): bv32 {
    ((b1 & 0x1F) << 6) | Low6(b2)
  }

  function Value3(b1: Byte, b2: Byte, b3: Byte): bv32 {
    ((b1 & 0x0F) << 12) | (Low6(b2) << 6) | Low6(b3)
  }

  function Value4(b1: Byte, b2: Byte, b3: Byte, b4: Byte): bv32 {
    ((b1 & 0x07) << 18) | (Low6(b2) << 12) | (Low6(b3) << 6) | Low6(b4)
  }

  function Value5(b1: Byte, b2: Byte, b3: Byte, b4: Byte, b5: Byte): bv32 {
    ((b1 & 0x03) << 24) | (Low6(b2) << 18) | (Low6(b3) << 12) | (Low6(b4) << 6) | Low6(b5)
  }

  function Value6(b1: Byte, b2: Byte, b3: Byte, b4: Byte, b5: Byte, b6: Byte): bv32 {
    ((b1 & 0x01) << 30) | (Low6(b2) << 24) | (Low6(b3) << 18) | (Low6(b4) << 12) | (Low6(b5) << 6) | Low6(b6)
  }

  /** The code point of as many bytes as the first one announces. */
  function UnitValue(u: seq<Byte>): bv32
    requires u != [] && |u| == Announced(u[0])
  {
    match |u|
    case 1 => u[0]
    case 2 => Value2(u[0], u[1])
    case 3 => Value3(u[0], u[1], u[2])
    case 4 => Value4(u[0], u[1], u[2], u[3])
    case 5 => Value5(u[0], u[1], u[2], u[3], u[4])
    case _ => Value6(u[0], u[1], u[2], u[3], u[4], u[5])
  }

  /** Every first byte is followed by as many bytes as it announces. */
  predicate IsComplete(str: seq<Byte>) {
    str == [] || (Announced(str[0]) <= |str| && IsComplete(str[Announced(str[0])..]))
  }

  /** At most one byte is missing at the end; the null character behind the text then takes its place. */
  predicate IsReadable(str: seq<Byte>) {
    str == [] ||
    (var n := Announced(str[0]); (n <= |str| && IsReadable(str[n..])) || n == |str| + 1)
  }

  lemma {:induction false} CompleteIsReadable(str: seq<Byte>)
    requires IsComplete(str)
    ensures IsReadable(str)
  {
    if str != [] {
      CompleteIsReadable(str[Announced(str[0])..]);
    }
  }

  function Decoded(str: seq<Byte>): seq<bv32>
    requires IsReadable(str)
  {
    if str == [] then []
    else
      var n := Announced(str[0]);
      if n <= |str| then [UnitValue(str[..n])] + Decoded(str[n..]) else [UnitValue(str + [0])]
  }

  /**
   * How far the decoder reads from `idx` on, when it takes what each first byte announces without looking for the end.
   */
  function ReadsUpTo(str: seq<Byte>, idx: nat): (end: nat)
    requires idx <= |str|
    decreases |str| - idx
  {
    if idx == |str| then idx
    else
      var next := idx + Announced(str[idx]);
      if next >= |str| then next else ReadsUpTo(str, next)
  }

  /** The decoder stays in the text and its null character if and only if at most one byte is missing. */
  lemma {:induction false} StaysInTextIff(str: seq<Byte>, idx: nat)
    requires idx <= |str|
    ensures ReadsUpTo(str, idx) <= |str| + 1 <==> IsReadable(str[idx..])
    decreases |str| - idx
  {
    if idx < |str| {
      var n := Announced(str[idx]);
      if idx + n < |str| {
        StaysInTextIff(str, idx + n);
        assert str[idx..][n..] == str[idx + n..];
      } else if idx + n == |str| {
        assert str[idx..][n..] == [];
      }
    }
  }

  lemma DecodedFront(str: seq<Byte>, idx: nat)
    requires idx < |str| && IsReadable(str[idx..])
    ensures var n := Announced(str[idx]);
      if idx + n <= |str| then
        && IsReadable(str[idx + n..])
        && Decoded(str[idx..]) == [UnitValue(str[idx..idx + n])] + Decoded(str[idx + n..])
      else idx + n == |str| + 1 && Decoded(str[idx..]) == [UnitValue(str[idx..] + [0])]
  {
    hide UnitValue;
    var n := Announced(str[idx]);
    if idx + n <= |str| {
      assert str[idx..][n..] == str[idx + n..];
      assert str[idx..idx + n] == str[idx..][..n];
    }
  }

  lemma NothingToDecode()
    ensures IsReadable([]) && Decoded([]) == []
  {
  }

  lemma OneMoreValue(ret: seq<bv32>, value: bv32, rest: seq<bv32>)
    ensures ret + ([value] + rest) == ret + [value] + rest
    ensures ret + [value] + [] == ret + [value]
  {
  }

  method UTF8ToCodepoint(str: seq<Byte>) returns (ret: seq<bv32>)
    requires IsReadable(str)
    ensures ret == Decoded(str)
  {
    hide Announced, UnitValue, IsReadable, Decoded;
    ret := [];
    var idx := 0;
    assert str[0..] == str;
    NothingToDecode();
    while idx < |str|
      invariant 0 <= idx && (idx <= |str| ==> IsReadable(str[idx..]))
      invariant idx <= |str| ==> ret + Decoded(str[idx..]) == Decoded(str)
      invariant idx > |str| ==> ret == Decoded(str)
    {
      DecodedFront(str, idx);
      var n := Announced(str[idx]);
      var value := UnitValue(if idx + n <= |str| then str[idx..idx + n] else str[idx..] + [0]);
      OneMoreValue(ret, value, if idx + n <= |str| then Decoded(str[idx + n..]) else []);
      ret := ret + [value];
      idx := idx + n;
    }
    assert idx == |str| ==> str[idx..] == [];
  }

  function Encoded(points: seq<bv32>): seq<Byte> {
    if points == [] then [] else CodepointToUTF8(points[0]) + Encoded(points[1..])
  }

  // The bits of a code point, taken apart and put together again.

  lemma Bits2(p: bv32)
    requires UTF8_1_MAX < p <= UTF8_2_MAX
    ensures BYTE_2_FLAG <= Lead2(p) < BYTE_3_FLAG && Value2(Lead2(p), Trail(p)) == p
  {
  }

  lemma Bits3(p: bv32)
    requires UTF8_2_MAX < p <= UTF8_3_MAX
    ensures BYTE_3_FLAG <= Lead3(p) < BYTE_4_FLAG && Value3(Lead3(p), Trail(p >> 6), Trail(p)) == p
  {
  }

  lemma Bits4(p: bv32)
    requires UTF8_3_MAX < p < 0x20_0000
    ensures BYTE_4_FLAG <= Lead4(p) < BYTE_5_FLAG && Value4(Lead4(p), Trail(p >> 12), Trail(p >> 6), Trail(p)) == p
  {
  }

  lemma Bits5(p: bv32)
    requires UTF8_4_MAX < p <= UTF8_5_MAX
    ensures BYTE_5_FLAG <= Lead5(p) < BYTE_6_FLAG
    ensures Value5(Lead5(p), Trail(p >> 18), Trail(p >> 12), Trail(p >> 6), Trail(p)) == p
  {
  }

  lemma Bits6(p: bv32)
    requires UTF8_5_MAX < p <= UTF8_6_MAX
    ensures BYTE_6_FLAG <= Lead6(p)
    ensures Value6(Lead6(p), Trail(p >> 24), Trail(p >> 18), Trail(p >> 12), Trail(p >> 6), Trail(p)) == p
  {
  }

  /** One code point: the first byte announces the length, and the bytes give the code point back. */
  lemma CodepointRoundTrip(p: bv32)
    requires p <= UTF8_6_MAX
    ensures var u := CodepointToUTF8(p);
      u != [] && |u| == Announced(u[0]) && UnitValue(u) == p
  {
    hide Trail, Low6, Lead2, Lead3, Lead4, Lead5, Lead6, Value2, Value3, Value4, Value5, Value6;
    if UTF8_1_MAX < p <= UTF8_2_MAX {
      Bits2(p);
    } else if UTF8_2_MAX < p <= UTF8_3_MAX {
      Bits3(p);
    } else if UTF8_3_MAX < p <= UTF8_4_MAX {
      Bits4(p);
    } else if UTF8_4_MAX < p <= UTF8_5_MAX {
      Bits5(p);
    } else if UTF8_5_MAX < p {
      Bits6(p);
    }
  }

  /** Decoding undoes encoding, for every sequence of code points that have an encoding. */
  lemma {:induction false} RoundTrip(points: seq<bv32>)
    requires forall k :: 0 <= k < |points| ==> points[k] <= UTF8_6_MAX
    ensures IsComplete(Encoded(points)) && IsReadable(Encoded(points)) && Decoded(Encoded(points)) == points
  {
    if points != [] {
      hide UnitValue, CodepointToUTF8, Announced;
      RoundTrip(points[1..]);
      CodepointRoundTrip(points[0]);
      var u, rest := CodepointToUTF8(points[0]), Encoded(points[1..]);
      var str := u + rest;
      assert str[0] == u[0] && str[..|u|] == u && str[|u|..] == rest;
    }
  }

  /** So two different sequences of such code points have different encodings. */
  lemma EncodingIsInjective(a: seq<bv32>, b: seq<bv32>)
    requires forall k :: 0 <= k < |a| ==> a[k] <= UTF8_6_MAX
    requires forall k :: 0 <= k < |b| ==> b[k] <= UTF8_6_MAX
    ensures Encoded(a) == Encoded(b) ==> a == b
  {
    RoundTrip(a);
    RoundTrip(b);
  }

  // ----- the table of RFC 2279 -----

  /** How many bytes the table in section 2 of RFC 2279 gives a code point. */
  function Rfc2279Length(p: bv32): nat
    requires p <= UTF8_6_MAX
  {
    if p <= 0x7F then 1 else if p <= 0x7FF then 2 else if p <= 0xFFFF then 3 else if p <= 0x1F_FFFF then 4
    else if p <= 0x3FF_FFFF then 5 else 6
  }

  /** A continuation byte is of the form 10xxxxxx. */
  predicate IsTrail(b: Byte) {
    0x80 <= b <= 0xBF
  }

  /** The bits of a code point stand in one to six bytes from the left, behind a mark for their number. */
  predicate IsSpelled(p: bv32, u: seq<Byte>)
    requires 1 <= |u| <= 6
  {
    match |u|
    case 1 => u[0] <= 0x7F && p == u[0]
    case 2 => 0xC0 <= u[0] <= 0xDF && p == ((u[0] & 0x1F) << 6) | (u[1] & 0x3F)
    case 3 => 0xE0 <= u[0] <= 0xEF && p == ((u[0] & 0x0F) << 12) | ((u[1] & 0x3F) << 6) | (u[2] & 0x3F)
    case 4 =>
      && 0xF0 <= u[0] <= 0xF7
      && p == ((u[0] & 0x07) << 18) | ((u[1] & 0x3F) << 12) | ((u[2] & 0x3F) << 6) | (u[3] & 0x3F)
    case 5 =>
      && 0xF8 <= u[0] <= 0xFB
      && p == ((u[0] & 0x03) << 24) | ((u[1] & 0x3F) << 18) | ((u[2] & 0x3F) << 12) | ((u[3] & 0x3F) << 6)
              | (u[4] & 0x3F)
    case _ =>
      && 0xFC <= u[0] <= 0xFD
      && p == ((u[0] & 0x01) << 30) | ((u[1] & 0x3F) << 24) | ((u[2] & 0x3F) << 18) | ((u[3] & 0x3F) << 12)
              | ((u[4] & 0x3F) << 6) | (u[5] & 0x3F)
  }

  /** The encoding of that table: the fewest bytes that have room for the bits. */
  ghost predicate IsRfc2279(p: bv32, u: seq<Byte>)
    requires p <= UTF8_6_MAX
  {
    |u| == Rfc2279Length(p) && IsSpelled(p, u) && forall k :: 1 <= k < |u| ==> IsTrail(u[k])
  }

  lemma TrailsContinue(bits: bv32)
    ensures IsTrail(Trail(bits))
  {
  }

  lemma LeadsAnnounce(p: bv32)
    ensures 0xC0 <= Lead2(p) <= 0xDF && 0xE0 <= Lead3(p) <= 0xEF && 0xF0 <= Lead4(p) <= 0xF7
    ensures 0xF8 <= Lead5(p) <= 0xFB && 0xFC <= Lead6(p) <= 0xFD
  {
  }

  lemma IsSpelledFromTheLeft(u: seq<Byte>)
    requires u != [] && |u| == Announced(u[0]) && u[0] <= 0xFD && !(0x80 <= u[0] <= 0xBF)
    ensures 1 <= |u| <= 6 && IsSpelled(UnitValue(u), u)
  {
  }

  lemma EncodingIsSpelled(p: bv32)
    requires p <= UTF8_6_MAX
    ensures var u := CodepointToUTF8(p);
            u != [] && |u| == Announced(u[0]) && u[0] <= 0xFD && !(0x80 <= u[0] <= 0xBF) && UnitValue(u) == p
    ensures forall k :: 1 <= k < |CodepointToUTF8(p)| ==> IsTrail(CodepointToUTF8(p)[k])
    ensures |CodepointToUTF8(p)| == Rfc2279Length(p) <==> !(0x11_0000 <= p <= 0x1F_FFFF)
  {
    hide UnitValue, Announced, Trail, Low6, Lead2, Lead3, Lead4, Lead5, Lead6, IsTrail;
    CodepointRoundTrip(p);
    LeadsAnnounce(p);
    TrailsContinue(p);
    TrailsContinue(p >> 6);
    TrailsContinue(p >> 12);
    TrailsContinue(p >> 18);
    TrailsContinue(p >> 24);
  }

  /** The encoder keeps to the table except above the last Unicode code point, where it turns to five bytes early. */
  lemma EncodesAsRfc2279(p: bv32)
    requires p <= UTF8_6_MAX
    ensures IsRfc2279(p, CodepointToUTF8(p)) <==> !(0x11_0000 <= p <= 0x1F_FFFF)
  {
    hide CodepointToUTF8, UnitValue, Announced, IsSpelled, IsTrail, Rfc2279Length;
    EncodingIsSpelled(p);
    IsSpelledFromTheLeft(CodepointToUTF8(p));
  }
}

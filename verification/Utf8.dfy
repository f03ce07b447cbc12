/**
  UTF-8 as the JNI support library reads and writes it: the decoder that looks ahead one byte at a
  time, the encoder, and the grammar of well-formed UTF-8 (section 4 of RFC 3629) as the independent
  reference both are measured against.
 */
module Utf8 {
  type Byte = bv8
  type CodePoint = bv32

  /** Code units consumed and the code point found; `INVALID_PT` when there is none. */
  datatype OffsetPt = OffsetPt(offset: int, pt: CodePoint)

  const INVALID_PT := OffsetPt(-1, 0)
  const REPLACEMENT: CodePoint := 0xFFFD

  predicate IsHighSurrogate(pt: CodePoint) { 0xD800 <= pt < 0xDC00 }

  predicate IsLowSurrogate(pt: CodePoint) { 0xDC00 <= pt < 0xE000 }

  /** A Unicode scalar value: in range and not a surrogate. */
  predicate IsScalar(pt: CodePoint) { pt < 0x110000 && !(0xD800 <= pt < 0xE000) }

  predicate InRange(pts: seq<CodePoint>) { forall k :: 0 <= k < |pts| ==> pts[k] < 0x110000 }

  predicate AllScalar(pts: seq<CodePoint>) { forall k :: 0 <= k < |pts| ==> IsScalar(pts[k]) }

  // ---------------------------------------------------------------------------------------------
  // The decoder and the encoder
  // ---------------------------------------------------------------------------------------------

  /** A read of a NUL-terminated string. The precondition is the memory-safety obligation: nothing
      beyond the terminator may be looked at. */
  function At(s: seq<Byte>, i: nat): Byte
    requires i <= |s|
  {
    if i < |s| then s[i] else 0
  }

  predicate IsContinuation(b: Byte) { b & 0xC0 == 0x80 }

  function Join2(b0: Byte, b1: Byte): CodePoint {
    (((b0 & 0x1F) as CodePoint) << 6) | ((b1 & 0x3F) as CodePoint)
  }

  function Join3(b0: Byte, b1: Byte, b2: Byte): CodePoint {
    (((b0 & 0x0F) as CodePoint) << 12) | (((b1 & 0x3F) as CodePoint) << 6) | ((b2 & 0x3F) as CodePoint)
  }

  function Join4(b0: Byte, b1: Byte, b2: Byte, b3: Byte): CodePoint {
    (((b0 & 0x0F) as CodePoint) << 18) | (((b1 & 0x3F) as CodePoint) << 12)
    | (((b2 & 0x3F) as CodePoint) << 6) | ((b3 & 0x3F) as CodePoint)
  }

  function DecodeCheck(s: seq<Byte>, i: nat): OffsetPt
    requires i <= |s|
  {
    var b0 := At(s, i);
    if b0 < 0x80 then
      OffsetPt(1, b0 as CodePoint)
    else if b0 < 0xC0 then
      INVALID_PT
    else if b0 < 0xE0 then
      if !IsContinuation(At(s, i + 1)) then INVALID_PT else
      var pt := Join2(b0, At(s, i + 1));
      if pt < 0x80 then INVALID_PT else OffsetPt(2, pt)
    else if b0 < 0xF0 then
      if !IsContinuation(At(s, i + 1)) then INVALID_PT else
      if !IsContinuation(At(s, i + 2)) then INVALID_PT else
      var pt := Join3(b0, At(s, i + 1), At(s, i + 2));
      if pt < 0x800 then INVALID_PT else OffsetPt(3, pt)
    else if b0 < 0xF8 then
      if !IsContinuation(At(s, i + 1)) then INVALID_PT else
      if !IsContinuation(At(s, i + 2)) then INVALID_PT else
      if !IsContinuation(At(s, i + 3)) then INVALID_PT else
      var pt := Join4(b0, At(s, i + 1), At(s, i + 2), At(s, i + 3));
      if pt < 0x10000 || pt >= 0x110000 then INVALID_PT else OffsetPt(4, pt)
    else
      INVALID_PT
  }

  /** One turn of the decoding loop at `s[i]`: an undecodable byte costs one byte and yields U+FFFD. */
  function Step(s: seq<Byte>, i: nat): OffsetPt
    requires i < |s|
  {
    var r := DecodeCheck(s, i);
    if r.offset < 0 then OffsetPt(1, REPLACEMENT) else r
  }

  /** What the decoding loop produces on `s`. */
  function Decode(s: seq<Byte>): seq<CodePoint>
  {
    if s == [] then [] else
      StepStaysInside(s, 0);
      [Step(s, 0).pt] + Decode(s[Step(s, 0).offset..])
  }

  /** The cursor moves forward and never past the end. */
  lemma StepStaysInside(s: seq<Byte>, i: nat)
    requires i < |s|
    ensures 1 <= Step(s, i).offset && i + Step(s, i).offset <= |s|
  {
  }

  function Tail(pt: CodePoint): Byte { ((pt & 0x3F) | 0x80) as Byte }

  function Encode(pt: CodePoint): seq<Byte>
  {
    if pt < 0x80 then [pt as Byte]
    else if pt < 0x800 then [((pt >> 6) | 0xC0) as Byte, Tail(pt)]
    else if pt < 0x10000 then [((pt >> 12) | 0xE0) as Byte, Tail(pt >> 6), Tail(pt)]
    else if pt < 0x110000 then [((pt >> 18) | 0xF0) as Byte, Tail(pt >> 12), Tail(pt >> 6), Tail(pt)]
    else [0xEF, 0xBF, 0xBD]
  }

  function EncodeAll(pts: seq<CodePoint>): seq<Byte>
  {
    if pts == [] then [] else Encode(pts[0]) + EncodeAll(pts[1..])
  }

  // ---------------------------------------------------------------------------------------------
  // Section 4 of RFC 3629
  // ---------------------------------------------------------------------------------------------

  /** UTF8-char of the grammar, by byte ranges only. */
  predicate WellFormedChar(c: seq<Byte>)
  {
    match |c|
    case 1 => c[0] <= 0x7F
    case 2 => 0xC2 <= c[0] <= 0xDF && IsTail(c[1])
    case 3 => WellFormed3(c[0], c[1], c[2])
    case 4 => WellFormed4(c[0], c[1], c[2], c[3])
    case _ => false
  }

  predicate IsTail(b: Byte) { 0x80 <= b <= 0xBF }

  predicate WellFormed3(b0: Byte, b1: Byte, b2: Byte)
  {
    && IsTail(b2)
    && ( || (b0 == 0xE0 && 0xA0 <= b1 <= 0xBF)
         || (0xE1 <= b0 <= 0xEC && IsTail(b1))
         || (b0 == 0xED && 0x80 <= b1 <= 0x9F)
         || (0xEE <= b0 <= 0xEF && IsTail(b1)))
  }

  predicate WellFormed4(b0: Byte, b1: Byte, b2: Byte, b3: Byte)
  {
    && IsTail(b2) && IsTail(b3)
    && ( || (b0 == 0xF0 && 0x90 <= b1 <= 0xBF)
         || (0xF1 <= b0 <= 0xF3 && IsTail(b1))
         || (b0 == 0xF4 && 0x80 <= b1 <= 0x8F))
  }

  /** UTF8-octets of the grammar. */
  predicate WellFormed(s: seq<Byte>)
  {
    || s == []
    || (|s| >= 1 && WellFormedChar(s[..1]) && WellFormed(s[1..]))
    || (|s| >= 2 && WellFormedChar(s[..2]) && WellFormed(s[2..]))
    || (|s| >= 3 && WellFormedChar(s[..3]) && WellFormed(s[3..]))
    || (|s| >= 4 && WellFormedChar(s[..4]) && WellFormed(s[4..]))
  }

  // ---------------------------------------------------------------------------------------------
  // Bit arithmetic: splitting a code point over bytes and joining it again
  // ---------------------------------------------------------------------------------------------

  lemma Split2(pt: CodePoint)
    requires 0x80 <= pt < 0x800
    ensures var b0 := ((pt >> 6) | 0xC0) as Byte;
            0xC2 <= b0 < 0xE0 && IsContinuation(Tail(pt)) && Join2(b0, Tail(pt)) == pt
  {
  }

  lemma Split3(pt: CodePoint)
    requires 0x800 <= pt < 0x10000
    ensures var b0 := ((pt >> 12) | 0xE0) as Byte;
            && 0xE0 <= b0 < 0xF0 && IsContinuation(Tail(pt >> 6)) && IsContinuation(Tail(pt))
            && Join3(b0, Tail(pt >> 6), Tail(pt)) == pt
  {
  }

  lemma Split4(pt: CodePoint)
    requires 0x10000 <= pt < 0x110000
    ensures var b0 := ((pt >> 18) | 0xF0) as Byte;
            && 0xF0 <= b0 < 0xF8
            && IsContinuation(Tail(pt >> 12)) && IsContinuation(Tail(pt >> 6)) && IsContinuation(Tail(pt))
            && Join4(b0, Tail(pt >> 12), Tail(pt >> 6), Tail(pt)) == pt
  {
  }

  /** The byte ranges of the grammar say "neither overlong nor a surrogate". */
  lemma Ranges3(b0: Byte, b1: Byte, b2: Byte)
    requires 0xE0 <= b0 < 0xF0 && IsContinuation(b1) && IsContinuation(b2)
    ensures WellFormed3(b0, b1, b2) <==> Join3(b0, b1, b2) >= 0x800 && IsScalar(Join3(b0, b1, b2))
  {
  }

  /** The byte ranges of the grammar say "neither overlong nor beyond U+10FFFF". */
  lemma Ranges4(b0: Byte, b1: Byte, b2: Byte, b3: Byte)
    requires 0xF0 <= b0 < 0xF8 && IsContinuation(b1) && IsContinuation(b2) && IsContinuation(b3)
    ensures WellFormed4(b0, b1, b2, b3) <==> 0x10000 <= Join4(b0, b1, b2, b3) < 0x110000
  {
    var pt := Join4(b0, b1, b2, b3);
    assert pt >= 0x10000 <==> b0 != 0xF0 || b1 >= 0x90;
    assert pt < 0x110000 <==> b0 < 0xF4 || (b0 == 0xF4 && b1 < 0x90);
  }

  lemma Merge2(b0: Byte, b1: Byte)
    requires 0xC0 <= b0 < 0xE0 && IsContinuation(b1)
    ensures var pt := Join2(b0, b1);
            pt < 0x800 && ((pt >> 6) | 0xC0) as Byte == b0 && Tail(pt) == b1
  {
  }

  lemma Merge3(b0: Byte, b1: Byte, b2: Byte)
    requires 0xE0 <= b0 < 0xF0 && IsContinuation(b1) && IsContinuation(b2)
    ensures var pt := Join3(b0, b1, b2);
            pt < 0x10000 && ((pt >> 12) | 0xE0) as Byte == b0 && Tail(pt >> 6) == b1 && Tail(pt) == b2
  {
  }

  lemma Merge4(b0: Byte, b1: Byte, b2: Byte, b3: Byte)
    requires 0xF0 <= b0 < 0xF8 && IsContinuation(b1) && IsContinuation(b2) && IsContinuation(b3)
    ensures var pt := Join4(b0, b1, b2, b3);
            && pt < 0x200000 && ((pt >> 18) | 0xF0) as Byte == b0
            && Tail(pt >> 12) == b1 && Tail(pt >> 6) == b2 && Tail(pt) == b3
  {
  }

  // ---------------------------------------------------------------------------------------------
  // Decoding one code point is exactly undoing the encoder
  // ---------------------------------------------------------------------------------------------

  /** The bytes of an encoded code point decode to it, whatever follows. */
  lemma DecodeCheckOfEncode(s: seq<Byte>, i: nat, pt: CodePoint)
    requires pt < 0x110000
    requires i + |Encode(pt)| <= |s| && s[i..i + |Encode(pt)|] == Encode(pt)
    ensures DecodeCheck(s, i) == OffsetPt(|Encode(pt)|, pt)
  {
    var e := Encode(pt);
    assert forall j :: 0 <= j < |e| ==> At(s, i + j) == e[j];
    if pt < 0x80 {
      assert At(s, i) == e[0];
    } else if pt < 0x800 {
      Split2(pt);
      assert At(s, i) == e[0] && At(s, i + 1) == e[1];
    } else if pt < 0x10000 {
      Split3(pt);
      assert At(s, i) == e[0] && At(s, i + 1) == e[1] && At(s, i + 2) == e[2];
    } else {
      Split4(pt);
      assert At(s, i) == e[0] && At(s, i + 1) == e[1] && At(s, i + 2) == e[2] && At(s, i + 3) == e[3];
    }
  }

  lemma Encode2(b0: Byte, b1: Byte)
    requires 0xC0 <= b0 < 0xE0 && IsContinuation(b1) && Join2(b0, b1) >= 0x80
    ensures Join2(b0, b1) < 0x800 && Encode(Join2(b0, b1)) == [b0, b1]
  {
    Merge2(b0, b1);
  }

  lemma Encode3(b0: Byte, b1: Byte, b2: Byte)
    requires 0xE0 <= b0 < 0xF0 && IsContinuation(b1) && IsContinuation(b2) && Join3(b0, b1, b2) >= 0x800
    ensures Join3(b0, b1, b2) < 0x10000 && Encode(Join3(b0, b1, b2)) == [b0, b1, b2]
  {
    Merge3(b0, b1, b2);
  }

  lemma Encode4(b0: Byte, b1: Byte, b2: Byte, b3: Byte)
    requires 0xF0 <= b0 < 0xF8 && IsContinuation(b1) && IsContinuation(b2) && IsContinuation(b3)
    requires 0x10000 <= Join4(b0, b1, b2, b3) < 0x110000
    ensures Encode(Join4(b0, b1, b2, b3)) == [b0, b1, b2, b3]
  {
    Merge4(b0, b1, b2, b3);
  }

  /** What a successful decode consumed is exactly what the encoder emits for its result. */
  lemma EncodeOfDecodeCheck(s: seq<Byte>, i: nat)
    requires i < |s| && DecodeCheck(s, i) != INVALID_PT
    ensures var r := DecodeCheck(s, i);
            1 <= r.offset && i + r.offset <= |s| && r.pt < 0x110000 && s[i..i + r.offset] == Encode(r.pt)
  {
    var r := DecodeCheck(s, i);
    StepStaysInside(s, i);
    SliceIsDisplay(s, i, r.offset);
    if r.offset == 2 {
      Encode2(s[i], s[i + 1]);
    } else if r.offset == 3 {
      Encode3(s[i], s[i + 1], s[i + 2]);
    } else if r.offset == 4 {
      Encode4(s[i], s[i + 1], s[i + 2], s[i + 3]);
    }
  }

  lemma SliceIsDisplay<T>(s: seq<T>, i: nat, k: nat)
    requires i + k <= |s|
    ensures k == 1 ==> s[i..i + k] == [s[i]]
    ensures k == 2 ==> s[i..i + k] == [s[i], s[i + 1]]
    ensures k == 3 ==> s[i..i + k] == [s[i], s[i + 1], s[i + 2]]
    ensures k == 4 ==> s[i..i + k] == [s[i], s[i + 1], s[i + 2], s[i + 3]]
  {
  }

  /** Decoding succeeds with `(k, pt)` exactly when `pt` is in range and the next `k` bytes are what the
      encoder emits for it: overlong, truncated and out-of-range forms are all rejected. */
  lemma DecodeCheckIff(s: seq<Byte>, i: nat, k: nat, pt: CodePoint)
    requires i < |s|
    ensures DecodeCheck(s, i) == OffsetPt(k, pt)
            <==> pt < 0x110000 && i + k <= |s| && s[i..i + k] == Encode(pt)
  {
    if DecodeCheck(s, i) == OffsetPt(k, pt) {
      EncodeOfDecodeCheck(s, i);
    }
    if pt < 0x110000 && i + k <= |s| && s[i..i + k] == Encode(pt) {
      assert k == |Encode(pt)|;
      DecodeCheckOfEncode(s, i, pt);
    }
  }

  // ---------------------------------------------------------------------------------------------
  // What the bytes say: section 3 of RFC 3629, as a number in base 64 whose first digit is in the lead byte
  // ---------------------------------------------------------------------------------------------

  /** The number with one digit more, that of a continuation byte. */
  function Next(value: CodePoint, b: Byte): CodePoint { value * 0x40 + (b - 0x80) as CodePoint }

  lemma Digit(pt: CodePoint, rest: CodePoint)
    requires pt < 0x11_0000 && rest == pt >> 6
    ensures pt == Next(rest, Tail(pt))
  {
  }

  lemma Lead(pt: CodePoint)
    ensures pt < 0x20 ==> (((pt | 0xC0) as Byte) - 0xC0) as CodePoint == pt
    ensures pt < 0x10 ==> (((pt | 0xE0) as Byte) - 0xE0) as CodePoint == pt
    ensures pt < 0x08 ==> (((pt | 0xF0) as Byte) - 0xF0) as CodePoint == pt
  {
  }

  lemma Shifts(pt: CodePoint)
    ensures pt >> 6 >> 6 == pt >> 12 && pt >> 12 >> 6 == pt >> 18
    ensures pt < 0x800 ==> pt >> 6 < 0x20
    ensures pt < 0x1_0000 ==> pt >> 12 < 0x10
    ensures pt < 0x11_0000 ==> pt >> 18 < 0x08 && pt >> 6 < 0x11_0000 && pt >> 12 < 0x11_0000
  {
  }

  lemma Value2(pt: CodePoint)
    requires 0x80 <= pt < 0x800
    ensures var e := Encode(pt);
            |e| == 2 && pt == Next((e[0] - 0xC0) as CodePoint, e[1])
  {
  }

  lemma Value3(pt: CodePoint)
    requires 0x800 <= pt < 0x1_0000
    ensures var e := Encode(pt);
            |e| == 3 && pt == Next(Next((e[0] - 0xE0) as CodePoint, e[1]), e[2])
  {
    Shifts(pt);
    Digit(pt, pt >> 6);
    Digit(pt >> 6, pt >> 12);
    Lead(pt >> 12);
  }

  lemma TopOfFour(pt: CodePoint)
    requires 0x1_0000 <= pt < 0x11_0000
    ensures Next(((((pt >> 18) | 0xF0) as Byte) - 0xF0) as CodePoint, Tail(pt >> 12)) == pt >> 12
  {
    Shifts(pt);
    Digit(pt >> 12, pt >> 18);
    Lead(pt >> 18);
  }

  lemma Middle(pt: CodePoint)
    requires 0x1_0000 <= pt < 0x11_0000
    ensures pt == Next(Next(pt >> 12, Tail(pt >> 6)), Tail(pt))
  {
    Shifts(pt);
    Digit(pt, pt >> 6);
    Digit(pt >> 6, pt >> 12);
  }

  lemma Value4(pt: CodePoint)
    requires 0x1_0000 <= pt < 0x11_0000
    ensures var e := Encode(pt);
            |e| == 4 && pt == Next(Next(Next((e[0] - 0xF0) as CodePoint, e[1]), e[2]), e[3])
  {
    TopOfFour(pt);
    Middle(pt);
  }

  /** The value of the emitted bytes is the code point; beyond the range they are those of U+FFFD. */
  lemma EncodeValue(pt: CodePoint)
    ensures var e := Encode(pt);
            if pt < 0x80 then e == [pt as Byte]
            else if pt < 0x800 then |e| == 2 && pt == Next((e[0] - 0xC0) as CodePoint, e[1])
            else if pt < 0x1_0000 then |e| == 3 && pt == Next(Next((e[0] - 0xE0) as CodePoint, e[1]), e[2])
            else if pt < 0x11_0000 then |e| == 4 && pt == Next(Next(Next((e[0] - 0xF0) as CodePoint, e[1]), e[2]), e[3])
            else e == Encode(0xFFFD)
  {
    if 0x80 <= pt < 0x800 {
      Value2(pt);
    } else if 0x800 <= pt < 0x1_0000 {
      Value3(pt);
    } else if 0x1_0000 <= pt < 0x11_0000 {
      Value4(pt);
    }
  }

  // ---------------------------------------------------------------------------------------------
  // Whole strings
  // ---------------------------------------------------------------------------------------------

  lemma AcceptedPrefix(t: seq<Byte>)
    requires t != []
    ensures DecodeCheck(t, 0) != INVALID_PT ==>
      exists k: nat, pt: CodePoint :: k <= |t| && pt < 0x11_0000 && t[..k] == Encode(pt)
  {
    if DecodeCheck(t, 0) != INVALID_PT {
      EncodeOfDecodeCheck(t, 0);
      var k: nat := DecodeCheck(t, 0).offset;
      assert t[..k] == t[0..k];
    }
  }

  /** A byte at which no encoded code point starts costs one byte and yields U+FFFD, however many bytes of
      a truncated sequence follow it. */
  lemma MalformedByteAlone(b: Byte, s: seq<Byte>)
    requires forall k: nat, pt: CodePoint :: k <= |s| + 1 && pt < 0x11_0000 ==> ([b] + s)[..k] != Encode(pt)
    ensures Decode([b] + s) == [0xFFFD] + Decode(s)
  {
    var t := [b] + s;
    AcceptedPrefix(t);
    assert t[1..] == s;
  }

  /** A byte beyond the current one, or a byte that ends any sequence when there is none. */
  function Ahead(s: seq<Byte>, i: nat): Byte {
    if i < |s| then s[i] else 0
  }

  /** The two strings look alike at the given places: same byte, or no continuation byte in either. */
  predicate Alike(b: Byte, c: Byte) { b == c || (!IsContinuation(b) && !IsContinuation(c)) }

  /** The result depends on the bytes up to and including the first one that is no continuation byte,
      and on nothing else. */
  lemma DecodeCheckByBytes(s: seq<Byte>, i: nat, t: seq<Byte>, j: nat)
    requires i < |s| && j < |t| && s[i] == t[j]
    requires Alike(Ahead(s, i + 1), Ahead(t, j + 1))
    requires IsContinuation(Ahead(s, i + 1)) ==> Alike(Ahead(s, i + 2), Ahead(t, j + 2))
    requires IsContinuation(Ahead(s, i + 1)) && IsContinuation(Ahead(s, i + 2)) ==>
               Alike(Ahead(s, i + 3), Ahead(t, j + 3))
    ensures DecodeCheck(s, i) == DecodeCheck(t, j)
  {
    if !IsContinuation(Ahead(s, i + 1)) {
    } else if !IsContinuation(Ahead(s, i + 2)) {
    } else if !IsContinuation(Ahead(s, i + 3)) {
    } else {
    }
  }

  /** The decoder looks forward only. */
  lemma StepOfSuffix(s: seq<Byte>, i: nat)
    requires i < |s|
    ensures Step(s, i) == Step(s[i..], 0)
  {
    DecodeCheckByBytes(s, i, s[i..], 0);
  }

  lemma DecodePrepend(pt: CodePoint, s: seq<Byte>)
    requires pt < 0x110000
    ensures Decode(Encode(pt) + s) == [pt] + Decode(s)
  {
    var es := Encode(pt) + s;
    DecodeCheckOfEncode(es, 0, pt);
    assert es[|Encode(pt)|..] == s;
  }

  /** The decoder undoes the encoder on every sequence of code points, surrogates included. */
  lemma {:induction false} DecodeOfEncodeAll(pts: seq<CodePoint>)
    requires InRange(pts)
    ensures Decode(EncodeAll(pts)) == pts
  {
    if pts != [] {
      DecodeOfEncodeAll(pts[1..]);
      DecodePrepend(pts[0], EncodeAll(pts[1..]));
    }
  }

  lemma {:induction false} DecodeInRange(s: seq<Byte>)
    ensures InRange(Decode(s)) && |Decode(s)| <= |s|
  {
    if s != [] {
      var r := Step(s, 0);
      StepStaysInside(s, 0);
      if DecodeCheck(s, 0) != INVALID_PT { EncodeOfDecodeCheck(s, 0); }
      DecodeInRange(s[r.offset..]);
    }
  }

  lemma EncodeCharWellFormed(pt: CodePoint)
    requires IsScalar(pt)
    ensures WellFormedChar(Encode(pt))
  {
    if 0x80 <= pt < 0x800 {
      Split2(pt);
    } else if 0x800 <= pt < 0x10000 {
      Split3(pt);
      Ranges3(((pt >> 12) | 0xE0) as Byte, Tail(pt >> 6), Tail(pt));
    } else if 0x10000 <= pt {
      Split4(pt);
      Ranges4(((pt >> 18) | 0xF0) as Byte, Tail(pt >> 12), Tail(pt >> 6), Tail(pt));
    }
  }

  lemma WellFormed2IsEncoded(b0: Byte, b1: Byte)
    requires 0xC2 <= b0 <= 0xDF && IsTail(b1)
    ensures IsScalar(Join2(b0, b1)) && Encode(Join2(b0, b1)) == [b0, b1]
  {
    assert IsContinuation(b1) && Join2(b0, b1) >= 0x80;
    Encode2(b0, b1);
  }

  lemma WellFormed3IsEncoded(b0: Byte, b1: Byte, b2: Byte)
    requires WellFormed3(b0, b1, b2)
    ensures IsScalar(Join3(b0, b1, b2)) && Encode(Join3(b0, b1, b2)) == [b0, b1, b2]
  {
    Ranges3(b0, b1, b2);
    Encode3(b0, b1, b2);
  }

  lemma WellFormed4IsEncoded(b0: Byte, b1: Byte, b2: Byte, b3: Byte)
    requires WellFormed4(b0, b1, b2, b3)
    ensures IsScalar(Join4(b0, b1, b2, b3)) && Encode(Join4(b0, b1, b2, b3)) == [b0, b1, b2, b3]
  {
    Ranges4(b0, b1, b2, b3);
    Encode4(b0, b1, b2, b3);
  }

  /** Every UTF8-char of the grammar is the encoding of a scalar value. */
  lemma WellFormedCharIsEncoded(c: seq<Byte>) returns (pt: CodePoint)
    requires WellFormedChar(c)
    ensures IsScalar(pt) && Encode(pt) == c
  {
    SliceIsDisplay(c, 0, |c|);
    match |c|
    case 1 =>
      pt := c[0] as CodePoint;
    case 2 =>
      WellFormed2IsEncoded(c[0], c[1]);
      pt := Join2(c[0], c[1]);
    case 3 =>
      WellFormed3IsEncoded(c[0], c[1], c[2]);
      pt := Join3(c[0], c[1], c[2]);
    case _ =>
      WellFormed4IsEncoded(c[0], c[1], c[2], c[3]);
      pt := Join4(c[0], c[1], c[2], c[3]);
  }

  lemma WellFormedPrepend(c: seq<Byte>, s: seq<Byte>)
    requires WellFormedChar(c) && WellFormed(s)
    ensures WellFormed(c + s)
  {
    assert (c + s)[..|c|] == c && (c + s)[|c|..] == s;
  }

  /** What the encoder emits for scalar values is well formed. */
  lemma {:induction false} EncodeAllWellFormed(pts: seq<CodePoint>)
    requires AllScalar(pts)
    ensures WellFormed(EncodeAll(pts))
  {
    if pts != [] {
      EncodeAllWellFormed(pts[1..]);
      EncodeCharWellFormed(pts[0]);
      WellFormedPrepend(Encode(pts[0]), EncodeAll(pts[1..]));
    }
  }

  /** A well-formed string that is not empty starts with the encoding of a scalar value. */
  lemma WellFormedSplit(s: seq<Byte>) returns (pt: CodePoint, rest: seq<Byte>)
    requires WellFormed(s) && s != []
    ensures IsScalar(pt) && s == Encode(pt) + rest && WellFormed(rest) && |rest| < |s|
  {
    var k := if WellFormedChar(s[..1]) && WellFormed(s[1..]) then 1
             else if |s| >= 2 && WellFormedChar(s[..2]) && WellFormed(s[2..]) then 2
             else if |s| >= 3 && WellFormedChar(s[..3]) && WellFormed(s[3..]) then 3
             else 4;
    pt := WellFormedCharIsEncoded(s[..k]);
    rest := s[k..];
  }

  lemma {:induction false} DecodeWellFormed(s: seq<Byte>)
    requires WellFormed(s)
    ensures AllScalar(Decode(s)) && EncodeAll(Decode(s)) == s
    decreases |s|
  {
    if s != [] {
      var pt, rest := WellFormedSplit(s);
      DecodePrepend(pt, rest);
      DecodeWellFormed(rest);
    }
  }

  /** Well-formed means: decodes to scalar values only, and encoding those gives the string back. */
  lemma WellFormedIff(s: seq<Byte>)
    ensures WellFormed(s) <==> AllScalar(Decode(s)) && EncodeAll(Decode(s)) == s
  {
    if WellFormed(s) { DecodeWellFormed(s); }
    if AllScalar(Decode(s)) { EncodeAllWellFormed(Decode(s)); }
  }

  lemma StepIgnoresWhatFollows(a: seq<Byte>, b: seq<Byte>)
    requires a != [] && (b == [] || !IsContinuation(b[0]))
    ensures Step(a + b, 0) == Step(a, 0)
  {
    DecodeCheckByBytes(a + b, 0, a, 0);
  }

  /** A string may be cut before any byte that is no continuation byte, even inside a truncated
      sequence: the two halves decode on their own. */
  lemma {:induction false} Resynchronise(a: seq<Byte>, b: seq<Byte>)
    requires b == [] || !IsContinuation(b[0])
    ensures Decode(a + b) == Decode(a) + Decode(b)
    decreases |a|
  {
    if a == [] {
      assert a + b == b;
    } else {
      var n := Step(a, 0).offset;
      StepStaysInside(a, 0);
      StepIgnoresWhatFollows(a, b);
      assert (a + b)[n..] == a[n..] + b;
      Resynchronise(a[n..], b);
    }
  }
}

/**
  UTF-16 as the JNI support library reads and writes it (sections 2.1 and 2.2 of RFC 2781), with
  unpaired surrogates decoded to U+FFFD.
 */
module Utf16 {
  import opened Utf8

  type Unit = bv16

  predicate IsHigh(c: Unit) { 0xD800 <= c < 0xDC00 }

  predicate IsLow(c: Unit) { 0xDC00 <= c < 0xE000 }

  predicate IsSurrogate(c: Unit) { IsHigh(c) || IsLow(c) }

  // ---------------------------------------------------------------------------------------------
  // The encoder and the decoder
  // ---------------------------------------------------------------------------------------------

  function High(pt: CodePoint): Unit
    requires 0x10000 <= pt < 0x110000
  {
    (((pt - 0x10000) >> 10) + 0xD800) as Unit
  }

  function Low(pt: CodePoint): Unit { ((pt & 0x3FF) + 0xDC00) as Unit }

  function Encode(pt: CodePoint): seq<Unit>
  {
    if pt < 0x10000 then [pt as Unit]
    else if pt < 0x110000 then [High(pt), Low(pt)]
    else [0xFFFD]
  }

  function EncodeAll(pts: seq<CodePoint>): seq<Unit>
  {
    if pts == [] then [] else Encode(pts[0]) + EncodeAll(pts[1..])
  }

  function Join(high: Unit, low: Unit): CodePoint
    requires IsHigh(high) && IsLow(low)
  {
    ((((high - 0xD800) as CodePoint) << 10) | ((low - 0xDC00) as CodePoint)) + 0x10000
  }

  /** The memory-safety obligation of one decoding step on a buffer: a high surrogate makes the decoder
      look one unit ahead, and that unit must be readable. */
  predicate Readable(mem: seq<Unit>, i: nat) { i < |mem| && (IsHigh(mem[i]) ==> i + 1 < |mem|) }

  function DecodeCheck(mem: seq<Unit>, i: nat): OffsetPt
    requires Readable(mem, i)
  {
    if IsHigh(mem[i]) && IsLow(mem[i + 1]) then OffsetPt(2, Join(mem[i], mem[i + 1]))
    else if IsHigh(mem[i]) || IsLow(mem[i]) then INVALID_PT
    else OffsetPt(1, mem[i] as CodePoint)
  }

  /** One turn of a decoding loop: an unpaired surrogate costs one unit and yields U+FFFD. */
  function Step(mem: seq<Unit>, i: nat): OffsetPt
    requires Readable(mem, i)
  {
    var r := DecodeCheck(mem, i);
    if r.offset < 0 then OffsetPt(1, REPLACEMENT) else r
  }

  lemma StepByUnits(mem: seq<Unit>, i: nat, mem': seq<Unit>, j: nat)
    requires Readable(mem, i) && Readable(mem', j) && mem[i] == mem'[j]
    requires IsHigh(mem[i]) ==> mem[i + 1] == mem'[j + 1] || (!IsLow(mem[i + 1]) && !IsLow(mem'[j + 1]))
    ensures Step(mem, i) == Step(mem', j)
  {
  }

  /** With a NUL unit behind the last one, no step goes past the end. */
  lemma StepStaysInside(u: seq<Unit>, i: nat)
    requires i < |u|
    ensures Readable(u + [0], i)
    ensures 1 <= Step(u + [0], i).offset && i + Step(u + [0], i).offset <= |u|
  {
    assert i + 1 == |u| ==> (u + [0])[i + 1] == 0;
  }

  /** The decoding loop on a string, which keeps a NUL unit behind its last one. */
  function Decode(u: seq<Unit>): seq<CodePoint>
  {
    if u == [] then [] else
      StepStaysInside(u, 0);
      var r := Step(u + [0], 0);
      [r.pt] + Decode(u[r.offset..])
  }

  // ---------------------------------------------------------------------------------------------
  // Well-formed UTF-16, one unit at a time
  // ---------------------------------------------------------------------------------------------

  /** A surrogate at `i` belongs to a pair: a low one follows, or a high one precedes. */
  predicate PairedAt(u: seq<Unit>, i: nat)
    requires i < |u|
  {
    || (IsHigh(u[i]) && i + 1 < |u| && IsLow(u[i + 1]))
    || (IsLow(u[i]) && 0 < i && IsHigh(u[i - 1]))
  }

  predicate WellFormed(u: seq<Unit>)
  {
    forall i: nat :: i < |u| && IsSurrogate(u[i]) ==> PairedAt(u, i)
  }

  /** The string with U+FFFD in the place of every unpaired surrogate. */
  function ReplaceUnpaired(u: seq<Unit>): seq<Unit>
  {
    seq(|u|, i requires 0 <= i < |u| => if IsSurrogate(u[i]) && !PairedAt(u, i) then 0xFFFD else u[i])
  }

  lemma ReplaceUnpairedIdentity(u: seq<Unit>)
    ensures ReplaceUnpaired(u) == u <==> WellFormed(u)
  {
    if ReplaceUnpaired(u) == u {
      forall i: nat | i < |u| && IsSurrogate(u[i])
        ensures PairedAt(u, i)
      {
        assert ReplaceUnpaired(u)[i] == u[i];
      }
    }
  }

  // ---------------------------------------------------------------------------------------------
  // Bit arithmetic of surrogate pairs
  // ---------------------------------------------------------------------------------------------

  lemma Rebase(bits: CodePoint, base: CodePoint)
    requires bits < 0x400 && (base == 0xD800 || base == 0xDC00)
    ensures base as Unit <= (bits + base) as Unit < base as Unit + 0x400
    ensures ((bits + base) as Unit - base as Unit) as CodePoint == bits
  {
  }

  lemma TenBitHalves(pt: CodePoint)
    requires 0x10000 <= pt < 0x110000
    ensures (pt - 0x10000) >> 10 < 0x400 && pt & 0x3FF < 0x400
    ensures (((pt - 0x10000) >> 10) << 10) | (pt & 0x3FF) == pt - 0x10000
  {
  }

  lemma JoinOfSplit(pt: CodePoint)
    requires 0x10000 <= pt < 0x110000
    ensures IsHigh(High(pt)) && IsLow(Low(pt)) && Join(High(pt), Low(pt)) == pt
  {
    TenBitHalves(pt);
    Rebase((pt - 0x10000) >> 10, 0xD800);
    Rebase(pt & 0x3FF, 0xDC00);
  }

  /** What a pair of halves stands for by section 2.1 of RFC 2781; all numbers are below 0x110000. */
  function PairValue(high: Unit, low: Unit): CodePoint
  {
    0x10000 + 0x400 * (high - 0xD800) as CodePoint + (low - 0xDC00) as CodePoint
  }

  lemma ValueOfHalves(pt: CodePoint)
    requires 0x10000 <= pt < 0x110000
    ensures pt == PairValue(High(pt), Low(pt))
  {
  }

  /** What is emitted for a code point: one unit of the same value, two halves of that value, or U+FFFD beyond the
      range. */
  lemma EncodeValue(pt: CodePoint)
    ensures var e := Encode(pt);
            if pt < 0x1_0000 then |e| == 1 && e[0] as CodePoint == pt
            else if pt < 0x11_0000 then |e| == 2 && IsHigh(e[0]) && IsLow(e[1]) && pt == PairValue(e[0], e[1])
            else e == Encode(0xFFFD)
  {
    if 0x10000 <= pt < 0x110000 {
      JoinOfSplit(pt);
      ValueOfHalves(pt);
    }
  }

  lemma SplitOfJoin(high: Unit, low: Unit)
    requires IsHigh(high) && IsLow(low)
    ensures 0x10000 <= Join(high, low) < 0x110000
    ensures High(Join(high, low)) == high && Low(Join(high, low)) == low
  {
  }

  // ---------------------------------------------------------------------------------------------
  // Whole strings
  // ---------------------------------------------------------------------------------------------

  /** Decoding unfolds by the first one or two units. */
  lemma DecodePair(u: seq<Unit>)
    requires |u| >= 2 && IsHigh(u[0]) && IsLow(u[1])
    ensures Decode(u) == [Join(u[0], u[1])] + Decode(u[2..])
  {
    assert (u + [0])[0] == u[0] && (u + [0])[1] == u[1];
  }

  lemma DecodeSingle(u: seq<Unit>)
    requires u != [] && !(|u| >= 2 && IsHigh(u[0]) && IsLow(u[1]))
    ensures Decode(u) == [if IsSurrogate(u[0]) then REPLACEMENT else u[0] as CodePoint] + Decode(u[1..])
  {
    StepOnSingle(u);
  }

  lemma StepOnSingle(u: seq<Unit>)
    requires u != [] && !(|u| >= 2 && IsHigh(u[0]) && IsLow(u[1]))
    ensures Step(u + [0], 0) == OffsetPt(1, if IsSurrogate(u[0]) then REPLACEMENT else u[0] as CodePoint)
  {
    assert (u + [0])[0] == u[0];
    assert (u + [0])[1] == if |u| >= 2 then u[1] else 0;
  }

  lemma ScalarFromPair(high: Unit, low: Unit)
    requires IsHigh(high) && IsLow(low)
    ensures IsScalar(Join(high, low))
  {
    SplitOfJoin(high, low);
  }

  lemma ScalarFromUnit(c: Unit)
    ensures IsScalar(if IsSurrogate(c) then REPLACEMENT else c as CodePoint)
  {
  }

  /** Whatever the units, decoding yields scalar values only. */
  lemma {:induction false} DecodeAllScalar(u: seq<Unit>)
    ensures AllScalar(Decode(u))
    decreases |u|
  {
    if u == [] {
    } else if |u| >= 2 && IsHigh(u[0]) && IsLow(u[1]) {
      DecodePair(u);
      ScalarFromPair(u[0], u[1]);
      DecodeAllScalar(u[2..]);
    } else {
      DecodeSingle(u);
      ScalarFromUnit(u[0]);
      DecodeAllScalar(u[1..]);
    }
  }

  lemma DecodePrepend(pt: CodePoint, u: seq<Unit>)
    requires IsScalar(pt)
    ensures Decode(Encode(pt) + u) == [pt] + Decode(u)
  {
    var e := Encode(pt) + u;
    if pt < 0x10000 {
      UnitOfScalar(pt);
      DecodeSingle(e);
      assert e[1..] == u;
    } else {
      JoinOfSplit(pt);
      DecodePair(e);
      assert e[2..] == u;
    }
  }

  lemma UnitOfScalar(pt: CodePoint)
    requires IsScalar(pt) && pt < 0x10000
    ensures !IsSurrogate(pt as Unit) && pt as Unit as CodePoint == pt
  {
  }

  /** The decoder undoes the encoder on every sequence of scalar values. */
  lemma {:induction false} DecodeOfEncodeAll(pts: seq<CodePoint>)
    requires AllScalar(pts)
    ensures Decode(EncodeAll(pts)) == pts
  {
    if pts != [] {
      DecodeOfEncodeAll(pts[1..]);
      DecodePrepend(pts[0], EncodeAll(pts[1..]));
    }
  }

  /** ... and on no other: a surrogate code point never survives. */
  lemma DecodeOfEncodeAllIff(pts: seq<CodePoint>)
    ensures Decode(EncodeAll(pts)) == pts <==> AllScalar(pts)
  {
    DecodeAllScalar(EncodeAll(pts));
    if AllScalar(pts) { DecodeOfEncodeAll(pts); }
  }

  lemma ReplaceUnpairedOfPair(u: seq<Unit>)
    requires |u| >= 2 && IsHigh(u[0]) && IsLow(u[1])
    ensures ReplaceUnpaired(u) == [u[0], u[1]] + ReplaceUnpaired(u[2..])
  {
    assert forall i: nat :: i < |u| - 2 ==> u[2..][i] == u[i + 2];
  }

  lemma ReplaceUnpairedOfSingle(u: seq<Unit>)
    requires u != [] && !(|u| >= 2 && IsHigh(u[0]) && IsLow(u[1]))
    ensures ReplaceUnpaired(u) == [if IsSurrogate(u[0]) then 0xFFFD else u[0]] + ReplaceUnpaired(u[1..])
  {
    assert forall i: nat :: i < |u| - 1 ==> u[1..][i] == u[i + 1];
  }

  lemma EncodeOfUnit(c: Unit)
    ensures Encode(if IsSurrogate(c) then REPLACEMENT else c as CodePoint) == [if IsSurrogate(c) then 0xFFFD else c]
  {
  }

  /** Decoding and encoding again replaces each unpaired surrogate by U+FFFD and changes nothing else. */
  lemma {:induction false} EncodeOfDecode(u: seq<Unit>)
    ensures EncodeAll(Decode(u)) == ReplaceUnpaired(u)
    decreases |u|
  {
    if u == [] {
    } else if |u| >= 2 && IsHigh(u[0]) && IsLow(u[1]) {
      DecodePair(u);
      SplitOfJoin(u[0], u[1]);
      EncodeOfDecode(u[2..]);
      ReplaceUnpairedOfPair(u);
    } else {
      DecodeSingle(u);
      EncodeOfUnit(u[0]);
      EncodeOfDecode(u[1..]);
      ReplaceUnpairedOfSingle(u);
    }
  }

  /** Well-formedness unfolds by the first one or two units. */
  lemma WellFormedOfPair(u: seq<Unit>)
    requires |u| >= 2 && IsHigh(u[0]) && IsLow(u[1])
    ensures WellFormed(u) <==> WellFormed(u[2..])
  {
    ReplaceUnpairedOfPair(u);
    ReplaceUnpairedIdentity(u);
    ReplaceUnpairedIdentity(u[2..]);
    assert u == [u[0], u[1]] + u[2..];
  }

  lemma WellFormedOfSingle(u: seq<Unit>)
    requires u != [] && !(|u| >= 2 && IsHigh(u[0]) && IsLow(u[1]))
    ensures WellFormed(u) <==> !IsSurrogate(u[0]) && WellFormed(u[1..])
  {
    ReplaceUnpairedOfSingle(u);
    ReplaceUnpairedIdentity(u);
    ReplaceUnpairedIdentity(u[1..]);
    assert u == [u[0]] + u[1..];
  }
}

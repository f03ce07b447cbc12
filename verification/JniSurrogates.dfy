/**
  The UTF-8 decoder has no test for surrogates, so a Java string made from UTF-8 is not always well-formed
  UTF-16. This module says exactly when it is, in terms of the input bytes.
 */
module JniSurrogates {
  import Utf8
  import Utf16
  import opened JniStrings

  /** The three bytes at `i` encode a high surrogate. */
  predicate EncodedHigh(s: seq<Utf8.Byte>, i: nat)
  {
    i + 3 <= |s| && s[i] == 0xED && 0xA0 <= s[i + 1] <= 0xAF && Utf8.IsContinuation(s[i + 2])
  }

  /** The three bytes at `i` encode a low surrogate. */
  predicate EncodedLow(s: seq<Utf8.Byte>, i: nat)
  {
    i + 3 <= |s| && s[i] == 0xED && 0xB0 <= s[i + 1] <= 0xBF && Utf8.IsContinuation(s[i + 2])
  }

  predicate HighFollowed(s: seq<Utf8.Byte>, i: nat) { EncodedHigh(s, i) ==> EncodedLow(s, i + 3) }

  predicate LowPreceded(s: seq<Utf8.Byte>, i: nat) { EncodedLow(s, i) ==> 3 <= i && EncodedHigh(s, i - 3) }

  /** Surrogates occur in the bytes only as a high one directly followed by a low one. */
  predicate SurrogateBytesPaired(s: seq<Utf8.Byte>)
  {
    forall i: nat :: i < |s| ==> HighFollowed(s, i) && LowPreceded(s, i)
  }

  /** An encoded surrogate alone makes the Java string ill formed. */
  lemma LoneSurrogateBytes()
    ensures ToJava([0xED, 0xA0, 0x80]) == [0xD800] && !Utf16.WellFormed([0xD800])
  {
    var s: seq<Utf8.Byte> := [0xED, 0xA0, 0x80];
    assert Utf8.Encode(0xD800) == s;
    Utf8.DecodePrepend(0xD800, []);
    assert s + [] == s;
    assert Utf16.EncodeAll([0xD800]) == [0xD800];
    var u: seq<Utf16.Unit> := [0xD800];
    assert Utf16.IsSurrogate(u[0]) && !Utf16.PairedAt(u, 0);
  }

  lemma SurrogateRanges(b0: Utf8.Byte, b1: Utf8.Byte, b2: Utf8.Byte)
    requires 0xE0 <= b0 < 0xF0 && Utf8.IsContinuation(b1) && Utf8.IsContinuation(b2)
    ensures Utf8.IsHighSurrogate(Utf8.Join3(b0, b1, b2)) <==> b0 == 0xED && 0xA0 <= b1 <= 0xAF
    ensures Utf8.IsLowSurrogate(Utf8.Join3(b0, b1, b2)) <==> b0 == 0xED && 0xB0 <= b1 <= 0xBF
  {
  }

  /** What the first decoding step yields is a surrogate exactly when the bytes encode one. */
  lemma FirstStep(s: seq<Utf8.Byte>)
    requires s != []
    ensures var r := Utf8.Step(s, 0);
            && (Utf8.IsHighSurrogate(r.pt) <==> EncodedHigh(s, 0))
            && (Utf8.IsLowSurrogate(r.pt) <==> EncodedLow(s, 0))
            && (EncodedHigh(s, 0) || EncodedLow(s, 0) ==> r.offset == 3)
  {
    if |s| >= 3 && 0xE0 <= s[0] < 0xF0 && Utf8.IsContinuation(s[1]) && Utf8.IsContinuation(s[2]) {
      SurrogateRanges(s[0], s[1], s[2]);
    }
  }

  lemma FirstStepInside(s: seq<Utf8.Byte>)
    requires s != []
    ensures var n := Utf8.Step(s, 0).offset;
            1 <= n <= |s| && forall j :: 0 < j < n ==> Utf8.IsContinuation(s[j])
  {
    Utf8.StepStaysInside(s, 0);
  }

  /** Dropping `n` bytes that contain only whole characters and only whole pairs. */
  lemma PairedOfSuffix(s: seq<Utf8.Byte>, n: nat)
    requires n <= |s|
    requires forall j: nat :: j < n ==> HighFollowed(s, j) && LowPreceded(s, j)
    requires forall j: nat :: j < n < j + 4 ==> !EncodedHigh(s, j)
    ensures SurrogateBytesPaired(s) <==> SurrogateBytesPaired(s[n..])
  {
    var t := s[n..];
    assert forall i: nat :: i < |t| ==> (EncodedHigh(t, i) <==> EncodedHigh(s, n + i));
    assert forall i: nat :: i < |t| ==> (EncodedLow(t, i) <==> EncodedLow(s, n + i));
    if SurrogateBytesPaired(s) {
      forall i: nat | i < |t|
        ensures HighFollowed(t, i) && LowPreceded(t, i)
      {
        assert HighFollowed(s, n + i) && LowPreceded(s, n + i);
      }
    }
    if SurrogateBytesPaired(t) {
      forall i: nat | i < |s|
        ensures HighFollowed(s, i) && LowPreceded(s, i)
      {
        if n <= i {
          assert HighFollowed(t, i - n) && LowPreceded(t, i - n);
        }
      }
    }
  }

  lemma ContinuationIsNoLead(b: Utf8.Byte)
    requires Utf8.IsContinuation(b)
    ensures b != 0xED
  {
  }

  /** Inside the first character no surrogate starts. */
  lemma NoneInsideFirst(s: seq<Utf8.Byte>, j: nat)
    requires s != [] && 0 < j < Utf8.Step(s, 0).offset
    ensures !EncodedHigh(s, j) && !EncodedLow(s, j)
  {
    FirstStepInside(s);
    ContinuationIsNoLead(s[j]);
  }

  /** The first unit that the rest of the bytes yields is a low surrogate exactly when they start with an
      encoded one. */
  lemma FirstUnit(s: seq<Utf8.Byte>)
    ensures ToJava(s) != [] && Utf16.IsLow(ToJava(s)[0]) <==> s != [] && EncodedLow(s, 0)
  {
    if s != [] {
      FirstStep(s);
      FirstUnitOf(Utf8.Step(s, 0).pt);
    }
  }

  lemma FirstUnitOf(pt: Utf8.CodePoint)
    ensures Utf16.IsLow(Utf16.Encode(pt)[0]) <==> Utf8.IsLowSurrogate(pt)
    ensures Utf16.IsHigh(Utf16.Encode(pt)[0]) && |Utf16.Encode(pt)| == 1 <==> Utf8.IsHighSurrogate(pt)
    ensures |Utf16.Encode(pt)| == 2 ==> Utf16.IsHigh(Utf16.Encode(pt)[0]) && Utf16.IsLow(Utf16.Encode(pt)[1])
    ensures 1 <= |Utf16.Encode(pt)| <= 2
  {
    if 0x10000 <= pt < 0x110000 { Utf16.JoinOfSplit(pt); }
  }

  /** A Java string made from UTF-8 bytes is well-formed UTF-16 exactly when the bytes encode surrogates only
      as a high one directly followed by a low one. */
  lemma {:induction false} ToJavaWellFormedIff(s: seq<Utf8.Byte>)
    ensures Utf16.WellFormed(ToJava(s)) <==> SurrogateBytesPaired(s)
    decreases |s|
  {
    if s != [] {
      var r := Utf8.Step(s, 0);
      var rest, unit, u := s[r.offset..], Utf16.Encode(r.pt), ToJava(s);
      FirstStepInside(s);
      FirstStep(s);
      FirstUnitOf(r.pt);
      FirstUnit(rest);
      assert u == unit + ToJava(rest);
      if EncodedLow(s, 0) {
        Utf16.WellFormedOfSingle(u);
        assert !LowPreceded(s, 0);
      } else if !EncodedHigh(s, 0) {
        ToJavaWellFormedIff(rest);
        OneCharacter(u, unit, ToJava(rest));
        forall j: nat | j < r.offset
          ensures !EncodedHigh(s, j) && !EncodedLow(s, j)
        {
          if j > 0 { NoneInsideFirst(s, j); }
        }
        PairedOfSuffix(s, r.offset);
      } else if EncodedLow(s, 3) {
        assert EncodedLow(rest, 0);
        ToJavaWellFormedIff(s[6..]);
        TwoSurrogates(s);
      } else {
        assert !HighFollowed(s, 0);
        assert !EncodedLow(rest, 0);
        Utf16.WellFormedOfSingle(u);
      }
    }
  }

  lemma OneCharacter(u: seq<Utf16.Unit>, unit: seq<Utf16.Unit>, rest: seq<Utf16.Unit>)
    requires u == unit + rest
    requires || (|unit| == 2 && Utf16.IsHigh(unit[0]) && Utf16.IsLow(unit[1]))
             || (|unit| == 1 && !Utf16.IsSurrogate(unit[0]))
    ensures Utf16.WellFormed(u) <==> Utf16.WellFormed(rest)
  {
    assert u[|unit|..] == rest;
    if |unit| == 2 { Utf16.WellFormedOfPair(u); } else { Utf16.WellFormedOfSingle(u); }
  }

  /** An encoded pair at the front makes one pair of units and can be dropped. */
  lemma TwoSurrogates(s: seq<Utf8.Byte>)
    requires EncodedHigh(s, 0) && EncodedLow(s, 3)
    requires Utf16.WellFormed(ToJava(s[6..])) <==> SurrogateBytesPaired(s[6..])
    ensures Utf16.WellFormed(ToJava(s)) <==> SurrogateBytesPaired(s)
  {
    var t, rest := s[3..], s[6..];
    assert EncodedLow(t, 0);
    FirstStep(s);
    FirstStep(t);
    var h, l := Utf8.Step(s, 0).pt, Utf8.Step(t, 0).pt;
    FirstUnitOf(h);
    FirstUnitOf(l);
    assert t[3..] == rest;
    assert ToJava(s) == Utf16.Encode(h) + ToJava(t);
    assert ToJava(t) == Utf16.Encode(l) + ToJava(rest);
    assert ToJava(s) == Utf16.Encode(h) + (Utf16.Encode(l) + ToJava(rest));
    OneCharacter(ToJava(s), Utf16.Encode(h) + Utf16.Encode(l), ToJava(rest));
    ContinuationIsNoLead(s[2]);
    ContinuationIsNoLead(s[5]);
    assert forall j: nat :: j < 6 ==> (EncodedHigh(s, j) ==> j == 0) && (EncodedLow(s, j) ==> j == 3);
    PairedOfSuffix(s, 6);
  }

  /** The bytes encode no surrogate at all. */
  predicate NoSurrogateBytes(s: seq<Utf8.Byte>)
  {
    forall i: nat :: i < |s| ==> !EncodedHigh(s, i) && !EncodedLow(s, i)
  }

  lemma NoneInSuffix(s: seq<Utf8.Byte>, n: nat)
    requires n <= |s| && forall j: nat :: j < n ==> !EncodedHigh(s, j) && !EncodedLow(s, j)
    ensures NoSurrogateBytes(s) <==> NoSurrogateBytes(s[n..])
  {
    var t := s[n..];
    assert forall i: nat :: i < |t| ==> (EncodedHigh(t, i) <==> EncodedHigh(s, n + i));
    assert forall i: nat :: i < |t| ==> (EncodedLow(t, i) <==> EncodedLow(s, n + i));
    if NoSurrogateBytes(t) {
      forall i: nat | i < |s| ensures !EncodedHigh(s, i) && !EncodedLow(s, i) {
        if n <= i { assert !EncodedHigh(t, i - n) && !EncodedLow(t, i - n); }
      }
    }
  }

  /** Bytes decode to scalar values exactly when they encode no surrogate. */
  lemma {:induction false} DecodesScalarsIff(s: seq<Utf8.Byte>)
    ensures Utf8.AllScalar(Utf8.Decode(s)) <==> NoSurrogateBytes(s)
    decreases |s|
  {
    if s != [] {
      var r := Utf8.Step(s, 0);
      FirstStepInside(s);
      FirstStep(s);
      Utf8.DecodeInRange(s);
      DecodesScalarsIff(s[r.offset..]);
      ScalarsByFirst(r.pt, Utf8.Decode(s[r.offset..]));
      if !EncodedHigh(s, 0) && !EncodedLow(s, 0) {
        forall j: nat | j < r.offset ensures !EncodedHigh(s, j) && !EncodedLow(s, j) {
          if j > 0 { NoneInsideFirst(s, j); }
        }
        NoneInSuffix(s, r.offset);
      }
    }
  }

  lemma ScalarsByFirst(pt: Utf8.CodePoint, rest: seq<Utf8.CodePoint>)
    requires Utf8.InRange([pt] + rest)
    ensures Utf8.AllScalar([pt] + rest)
       <==> !Utf8.IsHighSurrogate(pt) && !Utf8.IsLowSurrogate(pt) && Utf8.AllScalar(rest)
  {
    assert ([pt] + rest)[0] == pt && ([pt] + rest)[1..] == rest;
  }

  /** Going from UTF-8 through a Java string to wide characters equals decoding the UTF-8 directly exactly
      when the bytes encode no surrogate; other ill-formed bytes do not matter. */
  lemma Utf8ThroughJavaToWide(s: seq<Utf8.Byte>)
    ensures Utf16.Decode(ToJava(s)) == Utf8.Decode(s) <==> NoSurrogateBytes(s)
  {
    Utf16.DecodeOfEncodeAllIff(Utf8.Decode(s));
    DecodesScalarsIff(s);
  }
}

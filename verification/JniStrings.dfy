/**
  The string loops of the JNI support library: UTF-8 to a Java string and back, and the same for wide
  strings whose characters are code points. The loops are proved against `ToJava`, `FromJava`,
  `Utf16.EncodeAll` and `Utf16.Decode`; the theorems below are about those.
 */
module JniStrings {
  import opened Options
  import Utf8
  import Utf16

  /** The units of the Java string made from UTF-8 bytes. */
  function ToJava(s: seq<Utf8.Byte>): seq<Utf16.Unit> { Utf16.EncodeAll(Utf8.Decode(s)) }

  /** The UTF-8 bytes made from the units of a Java string. */
  function FromJava(u: seq<Utf16.Unit>): seq<Utf8.Byte> { Utf8.EncodeAll(Utf16.Decode(u)) }

  // ---------------------------------------------------------------------------------------------
  // The loops
  // ---------------------------------------------------------------------------------------------

  method Utf8Decode(str: seq<Utf8.Byte>, i: nat) returns (pt: Utf8.CodePoint, next: nat)
    requires i < |str|
    ensures i < next <= |str|
    ensures Utf8.Decode(str[i..]) == [pt] + Utf8.Decode(str[next..])
    ensures pt < 0x110000
  {
    Utf8.StepStaysInside(str, i);
    Utf8.StepOfSuffix(str, i);
    var res := Utf8.DecodeCheck(str, i);
    if res.offset < 0 {
      pt, next := 0xFFFD, i + 1;
    } else {
      Utf8.EncodeOfDecodeCheck(str, i);
      pt, next := res.pt, i + res.offset;
    }
    assert str[i..][next - i..] == str[next..];
  }

  method AppendUtf16(pt: Utf8.CodePoint, out: seq<Utf16.Unit>) returns (out': seq<Utf16.Unit>)
    ensures out' == out + Utf16.Encode(pt)
  {
    if pt < 0x10000 {
      out' := out + [pt as Utf16.Unit];
    } else if pt < 0x110000 {
      out' := out + [(((pt - 0x10000) >> 10) + 0xD800) as Utf16.Unit, ((pt & 0x3FF) + 0xDC00) as Utf16.Unit];
    } else {
      out' := out + [0xFFFD];
    }
  }

  /** The loop ends with its index exactly on the length of the string, having looked at most at the
      terminator behind it. */
  method StringFromUtf8(str: seq<Utf8.Byte>) returns (utf16: seq<Utf16.Unit>)
    ensures utf16 == ToJava(str)
    ensures |utf16| <= |str|
  {
    utf16 := [];
    var i := 0;
    while i < |str|
      invariant i <= |str|
      invariant ToJava(str) == utf16 + ToJava(str[i..])
    {
      var pt, next := Utf8Decode(str, i);
      utf16 := AppendUtf16(pt, utf16);
      i := next;
    }
    ToJavaLength(str);
  }

  /** `mem` is the memory the decoder may read. */
  method Utf16Decode(mem: seq<Utf16.Unit>, i: nat) returns (pt: Utf8.CodePoint, next: nat)
    requires Utf16.Readable(mem, i)
    ensures next == i + Utf16.Step(mem, i).offset && pt == Utf16.Step(mem, i).pt
  {
    var res := Utf16.DecodeCheck(mem, i);
    if res.offset < 0 {
      pt, next := 0xFFFD, i + 1;
    } else {
      pt, next := res.pt, i + res.offset;
    }
  }

  method AppendUtf8(pt: Utf8.CodePoint, out: seq<Utf8.Byte>) returns (out': seq<Utf8.Byte>)
    ensures out' == out + Utf8.Encode(pt)
  {
    if pt < 0x80 {
      out' := out + [pt as Utf8.Byte];
    } else if pt < 0x800 {
      out' := out + [((pt >> 6) | 0xC0) as Utf8.Byte, ((pt & 0x3F) | 0x80) as Utf8.Byte];
    } else if pt < 0x10000 {
      out' := out + [((pt >> 12) | 0xE0) as Utf8.Byte,
                     (((pt >> 6) & 0x3F) | 0x80) as Utf8.Byte,
                     ((pt & 0x3F) | 0x80) as Utf8.Byte];
    } else if pt < 0x110000 {
      out' := out + [((pt >> 18) | 0xF0) as Utf8.Byte,
                     (((pt >> 12) & 0x3F) | 0x80) as Utf8.Byte,
                     (((pt >> 6) & 0x3F) | 0x80) as Utf8.Byte,
                     ((pt & 0x3F) | 0x80) as Utf8.Byte];
    } else {
      out' := out + [0xEF, 0xBF, 0xBD];
    }
  }

  /** The loop works on a copy of the units with a NUL behind the last one, so its look-ahead is always
      readable; its index ends exactly on the length. */
  method Utf8FromString(units: seq<Utf16.Unit>) returns (out: seq<Utf8.Byte>)
    ensures out == FromJava(units)
    ensures |out| <= 3 * |units|
  {
    var str := units + [0];
    out := [];
    var i := 0;
    while i < |units|
      invariant i <= |units|
      invariant FromJava(units) == out + FromJava(units[i..])
    {
      FromJavaStep(units, i, out);
      var pt, next := Utf16Decode(str, i);
      out := AppendUtf8(pt, out);
      i := next;
    }
    assert units[i..] == [];
    FromJavaLength(units);
  }

  lemma FromJavaStep(units: seq<Utf16.Unit>, i: nat, out: seq<Utf8.Byte>)
    requires i < |units| && FromJava(units) == out + FromJava(units[i..])
    ensures Utf16.Readable(units + [0], i)
    ensures var r := Utf16.Step(units + [0], i);
            i + r.offset <= |units| && FromJava(units) == out + Utf8.Encode(r.pt) + FromJava(units[i + r.offset..])
  {
    StepOfTail(units, i);
    var r := Utf16.Step(units + [0], i);
    Regrouped(out, Utf8.Encode(r.pt), FromJava(units[i + r.offset..]));
  }

  lemma Regrouped<T>(a: seq<T>, b: seq<T>, c: seq<T>)
    ensures a + b + c == a + (b + c)
  {
  }

  /** From wide characters (code points) to the units of a Java string. */
  method StringFromWide(wide: seq<Utf8.CodePoint>) returns (utf16: seq<Utf16.Unit>)
    ensures utf16 == Utf16.EncodeAll(wide)
  {
    utf16 := [];
    var i := 0;
    while i < |wide|
      invariant i <= |wide|
      invariant Utf16.EncodeAll(wide) == utf16 + Utf16.EncodeAll(wide[i..])
    {
      utf16 := AppendUtf16(wide[i], utf16);
      i := i + 1;
    }
  }

  /** The last of the first `length` units is a high surrogate that a low one follows in memory. */
  predicate Straddles(data: seq<Utf16.Unit>, length: nat)
    requires length <= |data|
  {
    && 0 < length && Utf16.IsHigh(data[length - 1])
    && length < |data| && Utf16.IsLow(data[length])
  }

  /** How many units the wide loop consumes: it works on the caller's buffer, without a terminator. */
  function Consumed(data: seq<Utf16.Unit>, length: nat): (n: nat)
    requires length <= |data|
    ensures n <= |data|
  {
    if Straddles(data, length) then length + 1 else length
  }

  /** From `i` on, the wide loop reads only what is readable. */
  ghost predicate Inside(data: seq<Utf16.Unit>, length: nat, i: nat)
    requires length <= |data|
    decreases length - i
  {
    i < length ==> Utf16.Readable(data, i) && Inside(data, length, i + Utf16.Step(data, i).offset)
  }

  /** The loop reads behind its buffer exactly when the last unit is a high surrogate and the last one readable. */
  lemma {:induction false} InsideIff(data: seq<Utf16.Unit>, length: nat, i: nat)
    requires i < length <= |data|
    ensures Inside(data, length, i) <==> !(Utf16.IsHigh(data[length - 1]) && length == |data|)
    decreases length - i
  {
    if Utf16.Readable(data, i) {
      var next := i + Utf16.Step(data, i).offset;
      StepByOneOrPair(data, i);
      if next < length {
        InsideIff(data, length, next);
      }
    }
  }

  lemma StepByOneOrPair(data: seq<Utf16.Unit>, i: nat)
    requires Utf16.Readable(data, i)
    ensures Utf16.Step(data, i).offset
         == if Utf16.IsHigh(data[i]) && Utf16.IsLow(data[i + 1]) then 2 else 1
    ensures i + 1 < |data| && Utf16.IsHigh(data[i + 1]) ==> Utf16.Step(data, i).offset == 1
  {
  }

  /** A lone high surrogate in a buffer of its own makes the loop read behind the buffer; where there is something to
      read, it can become part of a pair that it does not belong to. */
  lemma ReadsBehindBuffer()
    ensures !Inside([0xD800], 1, 0)
    ensures Inside([0xD800, 0xDC00], 1, 0) && Straddles([0xD800, 0xDC00], 1)
    ensures Utf16.Decode([0xD800, 0xDC00]) != Utf16.Decode([0xD800])
  {
    InsideIff([0xD800], 1, 0);
    InsideIff([0xD800, 0xDC00], 1, 0);
    var data: seq<Utf16.Unit> := [0xD800, 0xDC00];
    assert data[1 - 1] == 0xD800 && data[1] == 0xDC00;
    assert Straddles(data, 1) && Consumed(data, 1) == 2;
    WideDecodesItsUnitsIff(data, 1);
    assert data[..2] == data && data[..1] == [0xD800];
  }

  /** From the units of a Java string to wide characters. The look-ahead reads the caller's buffer, of which `data` is
      what is readable; None stands for a read behind it. */
  method WideFromUnits(data: seq<Utf16.Unit>, length: nat) returns (result: Option<seq<Utf8.CodePoint>>)
    requires length <= |data|
    ensures result == if Inside(data, length, 0) then Some(Utf16.Decode(data[..Consumed(data, length)])) else None
  {
    ghost var units := data[..Consumed(data, length)];
    var wide: seq<Utf8.CodePoint> := [];
    var i := 0;
    while i < length
      invariant Inside(data, length, 0) ==> i < length || i == |units|
      invariant Inside(data, length, 0) <==> Inside(data, length, i)
      invariant Inside(data, length, 0) ==> Utf16.Decode(units) == wide + Utf16.Decode(units[i..])
    {
      if Utf16.IsHigh(data[i]) && i + 1 == |data| {
        return None;
      }
      WideStepInside(data, length, units, i, wide);
      var pt, next := Utf16Decode(data, i);
      wide := wide + [pt];
      i := next;
    }
    assert Inside(data, length, i);
    NothingLeftToDecode(units, i, wide);
    result := Some(wide);
  }

  lemma NothingLeftToDecode(units: seq<Utf16.Unit>, i: nat, wide: seq<Utf8.CodePoint>)
    requires i == |units| && Utf16.Decode(units) == wide + Utf16.Decode(units[i..])
    ensures Utf16.Decode(units) == wide
  {
    assert units[i..] == [];
  }

  lemma WideStepInside(data: seq<Utf16.Unit>, length: nat, units: seq<Utf16.Unit>, i: nat, wide: seq<Utf8.CodePoint>)
    requires i < length <= |data| && units == data[..Consumed(data, length)] && Utf16.Readable(data, i)
    requires Inside(data, length, i) ==> Utf16.Decode(units) == wide + Utf16.Decode(units[i..])
    ensures var r := Utf16.Step(data, i);
            && (Inside(data, length, i) <==> Inside(data, length, i + r.offset))
            && (Inside(data, length, i) ==>
                  && i + r.offset <= |units| && (i + r.offset < length || i + r.offset == |units|)
                  && Utf16.Decode(units) == wide + [r.pt] + Utf16.Decode(units[i + r.offset..]))
  {
    InsideIff(data, length, i);
    if Inside(data, length, i) {
      WideStep(data, length, units, i);
      var r := Utf16.Step(data, i);
      Regrouped(wide, [r.pt], Utf16.Decode(units[i + r.offset..]));
    }
  }

  /** Decoding a string from the middle. */
  lemma StepOfTail(u: seq<Utf16.Unit>, i: nat)
    requires i < |u|
    ensures Utf16.Readable(u + [0], i)
    ensures var r := Utf16.Step(u + [0], i);
            && 1 <= r.offset && i + r.offset <= |u|
            && Utf16.Decode(u[i..]) == [r.pt] + Utf16.Decode(u[i + r.offset..])
  {
    Utf16.StepStaysInside(u, i);
    var r := Utf16.Step(u + [0], i);
    assert u[i..] + [0] == (u + [0])[i..];
    Utf16.StepByUnits(u + [0], i, u[i..] + [0], 0);
    assert u[i..][r.offset..] == u[i + r.offset..];
  }

  /** The same on a buffer without a terminator; the last step ends exactly behind the last unit consumed. */
  lemma StepOfBuffer(data: seq<Utf16.Unit>, length: nat, i: nat)
    requires i < length <= |data|
    requires Utf16.IsHigh(data[length - 1]) ==> length < |data|
    ensures Utf16.Readable(data, i)
    ensures var units, r := data[..Consumed(data, length)], Utf16.Step(data, i);
            && Utf16.Readable(units + [0], i) && r == Utf16.Step(units + [0], i)
            && (i + r.offset < length || i + r.offset == |units|)
  {
    var mem := data[..Consumed(data, length)] + [0];
    assert i + 1 < Consumed(data, length) ==> mem[i + 1] == data[i + 1];
    assert i + 1 == Consumed(data, length) ==> mem[i + 1] == 0;
    Utf16.StepByUnits(data, i, mem, i);
  }

  lemma WideStep(data: seq<Utf16.Unit>, length: nat, units: seq<Utf16.Unit>, i: nat)
    requires i < length <= |data| && units == data[..Consumed(data, length)]
    requires Utf16.IsHigh(data[length - 1]) ==> length < |data|
    ensures Utf16.Readable(data, i)
    ensures var r := Utf16.Step(data, i);
            && i + r.offset <= |units| && (i + r.offset < length || i + r.offset == |units|)
            && Utf16.Decode(units[i..]) == [r.pt] + Utf16.Decode(units[i + r.offset..])
  {
    StepOfBuffer(data, length, i);
    StepOfTail(units, i);
  }

  // ---------------------------------------------------------------------------------------------
  // Lengths
  // ---------------------------------------------------------------------------------------------

  lemma EncodedLengths(pt: Utf8.CodePoint)
    ensures 1 <= |Utf16.Encode(pt)| <= |Utf8.Encode(pt)| <= 3 * |Utf16.Encode(pt)|
  {
  }

  lemma {:induction false} ToJavaLength(s: seq<Utf8.Byte>)
    ensures |ToJava(s)| <= |s|
  {
    if s != [] {
      var r := Utf8.Step(s, 0);
      Utf8.StepStaysInside(s, 0);
      if Utf8.DecodeCheck(s, 0) != Utf8.INVALID_PT { Utf8.EncodeOfDecodeCheck(s, 0); }
      EncodedLengths(r.pt);
      ToJavaLength(s[r.offset..]);
    }
  }

  lemma {:induction false} FromJavaLength(u: seq<Utf16.Unit>)
    ensures |FromJava(u)| <= 3 * |u|
    decreases |u|
  {
    if u == [] {
    } else if |u| >= 2 && Utf16.IsHigh(u[0]) && Utf16.IsLow(u[1]) {
      Utf16.DecodePair(u);
      EncodedLengths(Utf16.Join(u[0], u[1]));
      FromJavaLength(u[2..]);
    } else {
      Utf16.DecodeSingle(u);
      FromJavaLength(u[1..]);
    }
  }

  // ---------------------------------------------------------------------------------------------
  // Round trips
  // ---------------------------------------------------------------------------------------------

  /** UTF-8 to Java and back: the result is always well-formed UTF-8, doing it twice changes nothing more,
      and it changes nothing at all exactly on well-formed input. */
  lemma Utf8RoundTrip(s: seq<Utf8.Byte>)
    ensures Utf8.WellFormed(FromJava(ToJava(s)))
    ensures FromJava(ToJava(FromJava(ToJava(s)))) == FromJava(ToJava(s))
    ensures FromJava(ToJava(s)) == s <==> Utf8.WellFormed(s)
  {
    var t := FromJava(ToJava(s));
    Utf16.DecodeAllScalar(ToJava(s));
    Utf8.EncodeAllWellFormed(Utf16.Decode(ToJava(s)));
    WellFormedSurvives(t);
    if Utf8.WellFormed(s) { WellFormedSurvives(s); }
  }

  lemma WellFormedSurvives(s: seq<Utf8.Byte>)
    requires Utf8.WellFormed(s)
    ensures FromJava(ToJava(s)) == s
  {
    Utf8.DecodeWellFormed(s);
    Utf16.DecodeOfEncodeAll(Utf8.Decode(s));
  }

  /** Java to UTF-8 and back: every unpaired surrogate becomes U+FFFD and nothing else changes, so the
      string comes back unchanged exactly when all its surrogates are paired. */
  lemma Utf16RoundTrip(u: seq<Utf16.Unit>)
    ensures ToJava(FromJava(u)) == Utf16.ReplaceUnpaired(u)
    ensures ToJava(FromJava(u)) == u <==> Utf16.WellFormed(u)
  {
    Utf16.DecodeAllScalar(u);
    Utf8.DecodeOfEncodeAll(Utf16.Decode(u));
    Utf16.EncodeOfDecode(u);
    Utf16.ReplaceUnpairedIdentity(u);
  }

  /** Wide to Java and back is the identity exactly on sequences of scalar values; the units made from those
      never end in a high surrogate, so the wide loop has nothing to look at behind the last one. */
  lemma WideRoundTrip(wide: seq<Utf8.CodePoint>)
    ensures Utf16.Decode(Utf16.EncodeAll(wide)) == wide <==> Utf8.AllScalar(wide)
    ensures var u := Utf16.EncodeAll(wide);
            Utf8.AllScalar(wide) && u != [] ==> !Utf16.IsHigh(u[|u| - 1])
  {
    Utf16.DecodeOfEncodeAllIff(wide);
    if Utf8.AllScalar(wide) { EndsInNoHighSurrogate(wide); }
  }

  lemma {:induction false} EndsInNoHighSurrogate(wide: seq<Utf8.CodePoint>)
    requires Utf8.AllScalar(wide)
    ensures var u := Utf16.EncodeAll(wide); u != [] ==> !Utf16.IsHigh(u[|u| - 1])
  {
    if wide != [] {
      EndsInNoHighSurrogate(wide[1..]);
      if wide[0] < 0x10000 { Utf16.UnitOfScalar(wide[0]); } else { Utf16.JoinOfSplit(wide[0]); }
    }
  }

  /** On a buffer, the wide loop decodes the first `length` units exactly when those do not end in the first
      half of a pair whose second half lies behind them. */
  lemma WideDecodesItsUnitsIff(data: seq<Utf16.Unit>, length: nat)
    requires length <= |data|
    ensures Utf16.Decode(data[..Consumed(data, length)]) == Utf16.Decode(data[..length])
            <==> !Straddles(data, length)
  {
    Utf16.EncodeOfDecode(data[..length]);
    Utf16.EncodeOfDecode(data[..Consumed(data, length)]);
  }

  lemma {:induction false} EncodeAllConcat(a: seq<Utf8.CodePoint>, b: seq<Utf8.CodePoint>)
    ensures Utf16.EncodeAll(a + b) == Utf16.EncodeAll(a) + Utf16.EncodeAll(b)
  {
    if a == [] {
      assert a + b == b;
    } else {
      assert (a + b)[1..] == a[1..] + b;
      EncodeAllConcat(a[1..], b);
    }
  }

  /** Cutting UTF-8 before any byte that is no continuation byte and converting the pieces gives the same
      Java string, even when the first piece ends in a truncated sequence. */
  lemma ToJavaConcat(a: seq<Utf8.Byte>, b: seq<Utf8.Byte>)
    requires b == [] || !Utf8.IsContinuation(b[0])
    ensures ToJava(a + b) == ToJava(a) + ToJava(b)
  {
    Utf8.Resynchronise(a, b);
    EncodeAllConcat(Utf8.Decode(a), Utf8.Decode(b));
  }
}

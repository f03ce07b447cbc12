/** Flags: a C++ bit mask on one side, a Java set of enum ordinals on the other. */
module JniFlags {
  type Word = bv32
  // Flags have at most 32 of them.
  type Ordinal = bv6

  /** A constant of the Java enum. */
  datatype Flag = Flag(ordinal: Ordinal)

  /** What `mask` is after `i` shifts, starting at one. */
  function Mask(i: Ordinal): Word { if i < 32 then 1 << i else 0 }

  predicate Bit(f: Word, i: Ordinal) { i < 32 && (f >> i) & 1 == 1 }

  /** `s` has the ordinals of the bits below `bits` that are set, and no others. */
  ghost predicate Created(f: Word, bits: Ordinal, s: set<Flag>)
  {
    forall o: Flag :: o in s <==> o.ordinal < bits && Bit(f, o.ordinal)
  }

  predicate Ordinals(order: seq<Flag>) { forall k :: 0 <= k < |order| ==> order[k].ordinal < 32 }

  /** The iterator of the Java set `s` yields its elements in this order. */
  ghost predicate Lists(order: seq<Flag>, s: set<Flag>) { forall o: Flag :: o in order <==> o in s }

  /** The flags of all those ordinals, in the order in which they come. */
  function OrAll(order: seq<Flag>): Word
  {
    if order == [] then 0 else OrAll(order[..|order| - 1]) | Mask(order[|order| - 1].ordinal)
  }

  /** The lowest bits of a word. */
  function Low(f: Word, bits: Ordinal): Word { if bits < 32 then f & (Mask(bits) - 1) else f }

  // ---------------------------------------------------------------------------------------------
  // Bits
  // ---------------------------------------------------------------------------------------------

  lemma MaskShifted(i: Ordinal)
    requires i < 63
    ensures Mask(i) << 1 == Mask(i + 1)
  {
  }

  lemma NoBits(i: Ordinal)
    ensures !Bit(0, i)
  {
  }

  /** Each mask has its own bit, and no other. */
  lemma BitOfMask(i: Ordinal, j: Ordinal)
    requires j < 32
    ensures Bit(Mask(j), i) <==> i == j
  {
  }

  /** The test in the loop. */
  lemma BitByMask(f: Word, i: Ordinal)
    ensures f & Mask(i) != 0 <==> Bit(f, i)
  {
  }

  lemma BitOfOr(f: Word, g: Word, i: Ordinal)
    ensures Bit(f | g, i) <==> Bit(f, i) || Bit(g, i)
  {
  }

  lemma BitOfLow(f: Word, bits: Ordinal, i: Ordinal)
    ensures Bit(Low(f, bits), i) <==> i < bits && Bit(f, i)
  {
  }

  lemma LowOneMore(a: Word, b: Word, n: Ordinal)
    requires n < 32 && Low(a, n) == Low(b, n) && (Bit(a, n) <==> Bit(b, n))
    ensures Low(a, n + 1) == Low(b, n + 1)
  {
  }

  lemma LowNothing(a: Word)
    ensures Low(a, 0) == 0
  {
  }

  lemma {:induction false} BitsDetermineLow(a: Word, b: Word, n: Ordinal)
    requires n <= 32 && forall i: Ordinal :: i < n ==> (Bit(a, i) <==> Bit(b, i))
    ensures Low(a, n) == Low(b, n)
  {
    if n == 0 {
      LowNothing(a);
      LowNothing(b);
    } else {
      BitsDetermineLow(a, b, n - 1);
      LowOneMore(a, b, n - 1);
    }
  }

  /** The bits of a word determine the word. */
  lemma BitsDetermine(a: Word, b: Word)
    requires forall i: Ordinal :: i < 32 ==> (Bit(a, i) <==> Bit(b, i))
    ensures a == b
  {
    BitsDetermineLow(a, b, 32);
  }

  // ---------------------------------------------------------------------------------------------
  // Round trips
  // ---------------------------------------------------------------------------------------------

  lemma BitOfOneMore(f: Word, last: Ordinal, i: Ordinal)
    requires last < 32
    ensures Bit(f | Mask(last), i) <==> Bit(f, i) || i == last
  {
    BitOfMask(i, last);
    BitOfOr(f, Mask(last), i);
  }

  lemma InOneMore(order: seq<Flag>, o: Flag)
    requires order != []
    ensures o in order <==> o in order[..|order| - 1] || o == order[|order| - 1]
  {
    assert order == order[..|order| - 1] + [order[|order| - 1]];
  }

  lemma {:induction false} BitOfOrAll(order: seq<Flag>, i: Ordinal)
    requires Ordinals(order)
    ensures Bit(OrAll(order), i) <==> Flag(i) in order
  {
    if order == [] {
      NoBits(i);
    } else {
      var before, last := order[..|order| - 1], order[|order| - 1];
      BitOfOrAll(before, i);
      BitOfOneMore(OrAll(before), last.ordinal, i);
      InOneMore(order, Flag(i));
    }
  }

  lemma OrderDoesNotMatter(a: seq<Flag>, b: seq<Flag>)
    requires Ordinals(a) && Ordinals(b) && forall o :: o in a <==> o in b
    ensures OrAll(a) == OrAll(b)
  {
    forall i: Ordinal | i < 32 ensures Bit(OrAll(a), i) <==> Bit(OrAll(b), i) {
      BitOfOrAll(a, i);
      BitOfOrAll(b, i);
    }
    BitsDetermine(OrAll(a), OrAll(b));
  }

  /** Flags to a Java set and back, whatever the order of iteration: exactly the low `bits` bits are kept. */
  lemma FlagsOfCreated(f: Word, bits: Ordinal, s: set<Flag>, order: seq<Flag>)
    requires Created(f, bits, s) && Lists(order, s)
    ensures OrAll(order) == Low(f, bits)
  {
    forall i: Ordinal | i < 32 ensures Bit(OrAll(order), i) <==> Bit(Low(f, bits), i) {
      BitOfOrAll(order, i);
      BitOfLow(f, bits, i);
    }
    BitsDetermine(OrAll(order), Low(f, bits));
  }

  /** So nothing is lost exactly when no bit at or above `bits` is set. */
  lemma FlagsKeptIff(f: Word, bits: Ordinal, s: set<Flag>, order: seq<Flag>)
    requires Created(f, bits, s) && Lists(order, s)
    ensures OrAll(order) == f <==> forall i: Ordinal :: bits <= i < 32 ==> !Bit(f, i)
  {
    FlagsOfCreated(f, bits, s, order);
    forall i: Ordinal ensures Bit(OrAll(order), i) <==> i < bits && Bit(f, i) {
      BitOfLow(f, bits, i);
    }
    if forall i: Ordinal :: bits <= i < 32 ==> !Bit(f, i) {
      BitsDetermine(OrAll(order), f);
    }
  }

  /** A Java set to flags and back: the same set, whatever the order of iteration. */
  lemma CreatedOfFlags(s: set<Flag>, bits: Ordinal, order: seq<Flag>)
    requires bits <= 32 && (forall o: Flag :: o in s ==> o.ordinal < bits) && Lists(order, s)
    ensures Created(OrAll(order), bits, s)
  {
    forall i: Ordinal ensures Bit(OrAll(order), i) <==> Flag(i) in order {
      BitOfOrAll(order, i);
    }
  }

  // ---------------------------------------------------------------------------------------------
  // The loops
  // ---------------------------------------------------------------------------------------------

  function Or(flags: Word, ordinal: Ordinal): Word
    requires ordinal < 32
  {
    flags | (1 << ordinal)
  }

  lemma OrOneMore(order: seq<Flag>, i: nat)
    requires Ordinals(order) && i < |order|
    ensures OrAll(order[..i + 1]) == Or(OrAll(order[..i]), order[i].ordinal)
  {
    assert order[..i + 1][..i] == order[..i];
  }

  /** Asks the iterator as often as the set has elements. */
  method Flags(order: seq<Flag>) returns (flags: Word)
    requires Ordinals(order)
    ensures flags == OrAll(order) && forall i: Ordinal :: Bit(flags, i) <==> Flag(i) in order
  {
    flags := 0;
    for i := 0 to |order|
      invariant flags == OrAll(order[..i])
    {
      OrOneMore(order, i);
      flags := Or(flags, order[i].ordinal);
    }
    assert order[..|order|] == order;
    forall i: Ordinal ensures Bit(flags, i) <==> Flag(i) in order {
      BitOfOrAll(order, i);
    }
  }

  lemma OneMore(i: Ordinal, j: Ordinal)
    requires j < 63
    ensures i < j + 1 <==> i < j || i == j
  {
  }

  lemma CreatedOneMore(f: Word, bits: Ordinal, s: set<Flag>)
    requires bits < 63 && Created(f, bits, s)
    ensures Created(f, bits + 1, if Bit(f, bits) then s + {Flag(bits)} else s)
  {
    var s' := if Bit(f, bits) then s + {Flag(bits)} else s;
    forall o: Flag ensures o in s' <==> o.ordinal < bits + 1 && Bit(f, o.ordinal) {
      OneMore(o.ordinal, bits);
    }
  }

  /** Adds the enum value of each bit set, moving the mask along. */
  method Create(flags: Word, bits: Ordinal) returns (s: set<Flag>)
    ensures Created(flags, bits, s)
  {
    s := {};
    var mask: Word, i: Ordinal := 1, 0;
    while i < bits
      invariant i <= bits && mask == Mask(i) && Created(flags, i, s)
    {
      CreatedOneMore(flags, i, s);
      MaskShifted(i);
      BitByMask(flags, i);
      if flags & mask != 0 {
        s := s + {Flag(i)};
      }
      i, mask := i + 1, mask << 1;
    }
  }
}

/**
  C++ values to Java objects and back, by induction over the type. What one side becomes on the other is a
  relation: when keys merge, the order of iteration decides which value survives.
 */
module JniMarshal {
  import Utf8
  import Utf16
  import JniStrings

  datatype Prim = I8 | I16 | I32 | I64 | U8 | U16 | U32

  datatype KeyTy = NumKey(prim: Prim) | BoolKey | StrKey

  datatype Ty =
    | Num(prim: Prim)
    | Bool
    | Str
    | Bin
    | Opt(base: Ty)
    | List(elem: Ty)
    | Set(key: KeyTy)
    | Map(key: KeyTy, val: Ty)

  type Bytes = seq<Utf8.Byte>

  datatype CKey = KNum(n: int) | KBool(b: bool) | KStr(s: Bytes)

  datatype Cpp =
    | CNum(n: int)
    | CBool(b: bool)
    | CStr(s: Bytes)
    | CBin(bytes: Bytes)
    | CNone
    | CSome(v: Cpp)
    | CList(es: seq<Cpp>)
    | CSet(ks: set<CKey>)
    | CMap(m: map<CKey, Cpp>)

  /** The class of a boxed number. */
  datatype Box = Byte | Short | Integer | Long

  datatype JKey = JKNum(box: Box, n: int) | JKBool(b: bool) | JKStr(u: seq<Utf16.Unit>)

  datatype Java =
    | JNull
    | JNum(box: Box, n: int)
    | JBool(b: bool)
    | JStr(u: seq<Utf16.Unit>)
    | JBin(bytes: Bytes)
    | JList(es: seq<Java>)
    | JSet(ks: set<JKey>)
    | JMap(m: map<JKey, Java>)

  const JINT_MAX: nat := 0x7FFF_FFFF

  // ---------------------------------------------------------------------------------------------
  // Numbers
  // ---------------------------------------------------------------------------------------------

  function Lo(p: Prim): int
  {
    match p
    case I8 => -0x80
    case I16 => -0x8000
    case I32 => -0x8000_0000
    case I64 => -0x8000_0000_0000_0000
    case _ => 0
  }

  function Hi(p: Prim): int
  {
    match p
    case I8 => 0x7F
    case I16 => 0x7FFF
    case I32 => 0x7FFF_FFFF
    case I64 => 0x7FFF_FFFF_FFFF_FFFF
    case U8 => 0xFF
    case U16 => 0xFFFF
    case U32 => 0xFFFF_FFFF
  }

  /** Unsigned types take the next wider signed one. */
  function BoxOf(p: Prim): Box
  {
    match p
    case I8 => Byte
    case I16 => Short
    case U8 => Short
    case I32 => Integer
    case U16 => Integer
    case I64 => Long
    case U32 => Long
  }

  /** The signed type inside the box. */
  function Unboxed(b: Box): Prim
  {
    match b
    case Byte => I8
    case Short => I16
    case Integer => I32
    case Long => I64
  }

  /** `static_cast` to an integer type: the value modulo the width of the type. */
  function Cast(p: Prim, n: int): int { Lo(p) + (n - Lo(p)) % (Hi(p) - Lo(p) + 1) }

  predicate InRange(p: Prim, n: int) { Lo(p) <= n <= Hi(p) }

  lemma CastIs(p: Prim, n: int)
    ensures InRange(p, Cast(p, n))
    ensures Cast(p, n) == n <==> InRange(p, n)
  {
    var width := Hi(p) - Lo(p) + 1;
    assert 0 <= (n - Lo(p)) % width < width;
  }

  /** Casting changes a number by a multiple of the width. */
  lemma CastCongruent(p: Prim, n: int)
    ensures (Cast(p, n) - n) % (Hi(p) - Lo(p) + 1) == 0
  {
    var width := Hi(p) - Lo(p) + 1;
    var q := (n - Lo(p)) / width;
    assert Cast(p, n) - n == -q * width;
    MultipleModulo(-q, width);
  }

  lemma MultipleModulo(q: int, width: nat)
    requires width > 0
    ensures q * width % width == 0
  {
    var x := q * width;
    var d := (q - x / width) * width;
    assert d == x % width && 0 <= d < width;
    if q - x / width != 0 {
      NoSmallMultiple(q - x / width, width);
    }
  }

  lemma NoSmallMultiple(k: int, width: int)
    requires k != 0 && width > 0
    ensures k * width >= width || k * width <= -width
  {
  }

  function Pow2(n: nat): nat { if n == 0 then 1 else 2 * Pow2(n - 1) }

  function Bits(p: Prim): nat
  {
    match p
    case I8 => 8
    case I16 => 16
    case I32 => 32
    case I64 => 64
    case U8 => 8
    case U16 => 16
    case U32 => 32
  }

  predicate Signed(p: Prim) { p in {I8, I16, I32, I64} }

  /** The range is that of so many bits, in two's complement if the type is signed. */
  lemma RangeIsOfBits(p: Prim)
    ensures if Signed(p) then Lo(p) + Pow2(Bits(p) - 1) == 0 else Lo(p) == 0
    ensures Hi(p) - Lo(p) + 1 == Pow2(Bits(p))
  {
    Powers();
    Doubles(7);
    Doubles(15);
    Doubles(31);
    Doubles(63);
  }

  lemma Doubles(n: nat)
    ensures Pow2(n + 1) == 2 * Pow2(n)
  {
  }

  lemma Powers()
    ensures Pow2(8) == 0x100 && Pow2(16) == 0x1_0000
    ensures Pow2(32) == 0x1_0000_0000 && Pow2(64) == 0x1_0000_0000_0000_0000
  {
    PowSum(8, 8);
    PowSum(16, 16);
    PowSum(32, 32);
  }

  lemma PowSum(m: nat, n: nat)
    ensures Pow2(m + n) == Pow2(m) * Pow2(n)
  {
    if m > 0 {
      PowSum(m - 1, n);
      assert Pow2(m + n) == 2 * Pow2(m - 1 + n);
    }
  }

  /** A boxed number has the smallest Java class that has all its values; Java's boxes are signed, with 8, 16, 32 and
      64 bits. */
  lemma BoxIsSmallest(p: Prim, b: Box)
    requires forall n :: InRange(p, n) ==> InRange(Unboxed(b), n)
    ensures Hi(Unboxed(BoxOf(p))) <= Hi(Unboxed(b))
    ensures forall n :: InRange(p, n) ==> InRange(Unboxed(BoxOf(p)), n)
  {
    assert InRange(p, Lo(p)) && InRange(p, Hi(p));
  }

  lemma BoxesAreSigned(b: Box)
    ensures Signed(Unboxed(b))
    ensures Bits(Unboxed(b)) == match b case Byte => 8 case Short => 16 case Integer => 32 case Long => 64
  {
  }

  lemma WiderBox(p: Prim, n: int)
    requires InRange(p, n)
    ensures InRange(Unboxed(BoxOf(p)), n)
  {
  }

  /** A C++ number comes back as it was; a Java number does if and only if the C++ type has it. */
  lemma NumberRoundTrip(p: Prim, n: int)
    ensures InRange(p, n) ==> Cast(p, Cast(Unboxed(BoxOf(p)), n)) == n
    ensures InRange(Unboxed(BoxOf(p)), n) ==> (Cast(Unboxed(BoxOf(p)), Cast(p, n)) == n <==> InRange(p, n))
  {
    CastIs(p, n);
    CastIs(Unboxed(BoxOf(p)), n);
    WiderBox(p, Cast(p, n));
    CastIs(Unboxed(BoxOf(p)), Cast(p, n));
  }

  // ---------------------------------------------------------------------------------------------
  // Values of a type
  // ---------------------------------------------------------------------------------------------

  predicate KeyFits(kt: KeyTy, k: CKey)
  {
    match kt
    case NumKey(p) => k.KNum? && InRange(p, k.n)
    case BoolKey => k.KBool?
    case StrKey => k.KStr?
  }

  predicate JKeyFits(kt: KeyTy, k: JKey)
  {
    match kt
    case NumKey(p) => k.JKNum? && k.box == BoxOf(p) && InRange(Unboxed(k.box), k.n)
    case BoolKey => k.JKBool?
    case StrKey => k.JKStr?
  }

  /** A value of the C++ type whose containers are not longer than a `jint` can count. */
  predicate Fits(ty: Ty, v: Cpp)
    decreases ty
  {
    match ty
    case Num(p) => v.CNum? && InRange(p, v.n)
    case Bool => v.CBool?
    case Str => v.CStr?
    case Bin => v.CBin? && |v.bytes| <= JINT_MAX
    case Opt(base) => v.CNone? || (v.CSome? && Fits(base, v.v))
    case List(elem) => v.CList? && |v.es| <= JINT_MAX && forall i :: 0 <= i < |v.es| ==> Fits(elem, v.es[i])
    case Set(kt) => v.CSet? && |v.ks| <= JINT_MAX && forall k :: k in v.ks ==> KeyFits(kt, k)
    case Map(kt, val) => v.CMap? && |v.m| <= JINT_MAX && forall k :: k in v.m ==> KeyFits(kt, k) && Fits(val, v.m[k])
  }

  /** An object of the class that the conversion to C++ asserts; null only where the type is optional. */
  predicate JFits(ty: Ty, j: Java)
    decreases ty
  {
    match ty
    case Num(p) => j.JNum? && j.box == BoxOf(p) && InRange(Unboxed(j.box), j.n)
    case Bool => j.JBool?
    case Str => j.JStr?
    case Bin => j.JBin? && |j.bytes| <= JINT_MAX
    case Opt(base) => j.JNull? || JFits(base, j)
    case List(elem) => j.JList? && |j.es| <= JINT_MAX && forall i :: 0 <= i < |j.es| ==> JFits(elem, j.es[i])
    case Set(kt) => j.JSet? && |j.ks| <= JINT_MAX && forall k :: k in j.ks ==> JKeyFits(kt, k)
    case Map(kt, val) => j.JMap? && |j.m| <= JINT_MAX && forall k :: k in j.m ==> JKeyFits(kt, k) && JFits(val, j.m[k])
  }

  // ---------------------------------------------------------------------------------------------
  // Keys
  // ---------------------------------------------------------------------------------------------

  function KeyToJava(kt: KeyTy, k: CKey): JKey
    requires KeyFits(kt, k)
  {
    match kt
    case NumKey(p) => JKNum(BoxOf(p), Cast(Unboxed(BoxOf(p)), k.n))
    case BoolKey => JKBool(k.b)
    case StrKey => JKStr(JniStrings.ToJava(k.s))
  }

  function KeyToCpp(kt: KeyTy, k: JKey): CKey
    requires JKeyFits(kt, k)
  {
    match kt
    case NumKey(p) => KNum(Cast(p, k.n))
    case BoolKey => KBool(k.b)
    case StrKey => KStr(JniStrings.FromJava(k.u))
  }

  predicate KeyClean(k: CKey) { k.KStr? ==> Utf8.WellFormed(k.s) }

  predicate JKeyClean(kt: KeyTy, k: JKey)
    requires JKeyFits(kt, k)
  {
    match kt
    case NumKey(p) => InRange(p, k.n)
    case BoolKey => true
    case StrKey => Utf16.WellFormed(k.u)
  }

  lemma KeyRoundTrip(kt: KeyTy, k: CKey)
    requires KeyFits(kt, k)
    ensures JKeyFits(kt, KeyToJava(kt, k))
    ensures KeyClean(KeyToCpp(kt, KeyToJava(kt, k)))
    ensures KeyToCpp(kt, KeyToJava(kt, k)) == k <==> KeyClean(k)
  {
    match kt
    case NumKey(p) =>
      NumberRoundTrip(p, k.n);
      CastIs(Unboxed(BoxOf(p)), k.n);
    case BoolKey =>
    case StrKey => JniStrings.Utf8RoundTrip(k.s);
  }

  lemma JNumberKeyRoundTrip(p: Prim, k: JKey)
    requires JKeyFits(NumKey(p), k)
    ensures var c := KeyToCpp(NumKey(p), k);
            && KeyFits(NumKey(p), c) && InRange(p, KeyToJava(NumKey(p), c).n)
            && JKeyFits(NumKey(p), KeyToJava(NumKey(p), c))
            && (KeyToJava(NumKey(p), c) == k <==> InRange(p, k.n))
  {
    NumberRoundTrip(p, k.n);
    CastIs(p, k.n);
    WiderBox(p, Cast(p, k.n));
    CastIs(Unboxed(BoxOf(p)), Cast(p, k.n));
  }

  lemma JavaStringRoundTrip(u: seq<Utf16.Unit>)
    ensures Utf16.WellFormed(JniStrings.ToJava(JniStrings.FromJava(u)))
    ensures JniStrings.ToJava(JniStrings.FromJava(u)) == u <==> Utf16.WellFormed(u)
  {
    var t := JniStrings.ToJava(JniStrings.FromJava(u));
    JniStrings.Utf16RoundTrip(u);
    Utf16.DecodeAllScalar(u);
    Utf8.EncodeAllWellFormed(Utf16.Decode(u));
    JniStrings.WellFormedSurvives(JniStrings.FromJava(u));
    JniStrings.Utf16RoundTrip(t);
  }

  lemma JKeyRoundTrip(kt: KeyTy, k: JKey)
    requires JKeyFits(kt, k)
    ensures KeyFits(kt, KeyToCpp(kt, k))
    ensures JKeyFits(kt, KeyToJava(kt, KeyToCpp(kt, k))) && JKeyClean(kt, KeyToJava(kt, KeyToCpp(kt, k)))
    ensures KeyToJava(kt, KeyToCpp(kt, k)) == k <==> JKeyClean(kt, k)
  {
    match kt
    case NumKey(p) => JNumberKeyRoundTrip(p, k);
    case BoolKey =>
    case StrKey => JavaStringRoundTrip(k.u);
  }

  // ---------------------------------------------------------------------------------------------
  // What a value becomes
  // ---------------------------------------------------------------------------------------------

  /** The Java keys are the converted C++ keys. */
  ghost predicate KeysBecomeJava(kt: KeyTy, ks: set<CKey>, js: set<JKey>)
  {
    && (forall k {:trigger KeyToJava(kt, k)} :: k in ks ==> KeyFits(kt, k) && KeyToJava(kt, k) in js)
    && (forall jk {:trigger FromCppKey(kt, ks, jk)} :: jk in js ==> FromCppKey(kt, ks, jk))
  }

  ghost predicate FromCppKey(kt: KeyTy, ks: set<CKey>, jk: JKey)
  {
    exists k :: k in ks && KeyFits(kt, k) && KeyToJava(kt, k) == jk
  }

  ghost predicate KeysBecomeCpp(kt: KeyTy, js: set<JKey>, ks: set<CKey>)
  {
    && (forall jk {:trigger KeyToCpp(kt, jk)} :: jk in js ==> JKeyFits(kt, jk) && KeyToCpp(kt, jk) in ks)
    && (forall k {:trigger FromJavaKey(kt, js, k)} :: k in ks ==> FromJavaKey(kt, js, k))
  }

  ghost predicate FromJavaKey(kt: KeyTy, js: set<JKey>, k: CKey)
  {
    exists jk :: jk in js && JKeyFits(kt, jk) && KeyToCpp(kt, jk) == k
  }

  /** `fromCpp(v)` can be `j`. */
  ghost predicate BecomesJava(ty: Ty, v: Cpp, j: Java)
    decreases ty, 0
  {
    match ty
    case Num(p) => v.CNum? && j == JNum(BoxOf(p), Cast(Unboxed(BoxOf(p)), v.n))
    case Bool => v.CBool? && j == JBool(v.b)
    case Str => v.CStr? && j == JStr(JniStrings.ToJava(v.s))
    case Bin => v.CBin? && j == JBin(v.bytes)
    case Opt(base) => if v.CSome? then BecomesJava(base, v.v, j) else j == JNull
    case List(elem) =>
      v.CList? && j.JList? && |v.es| == |j.es| && forall i :: 0 <= i < |v.es| ==> BecomesJava(elem, v.es[i], j.es[i])
    case Set(kt) => v.CSet? && j.JSet? && KeysBecomeJava(kt, v.ks, j.ks)
    case Map(kt, val) =>
      && v.CMap? && j.JMap? && KeysBecomeJava(kt, v.m.Keys, j.m.Keys)
      && EntriesBecomeJava(kt, val, v.m, j.m)
  }

  ghost predicate EntriesBecomeJava(kt: KeyTy, val: Ty, m: map<CKey, Cpp>, jm: map<JKey, Java>)
    decreases val, 2
  {
    forall jk {:trigger EntryBecomesJava(kt, val, m, jk, jm[jk])} :: jk in jm ==>
      EntryBecomesJava(kt, val, m, jk, jm[jk])
  }

  ghost predicate EntryBecomesJava(kt: KeyTy, val: Ty, m: map<CKey, Cpp>, jk: JKey, jv: Java)
    decreases val, 1
  {
    exists k :: k in m && KeyFits(kt, k) && KeyToJava(kt, k) == jk && BecomesJava(val, m[k], jv)
  }

  /** `toCpp(j)` can be `v`. */
  ghost predicate BecomesCpp(ty: Ty, j: Java, v: Cpp)
    decreases ty, 0
  {
    match ty
    case Num(p) => j.JNum? && v == CNum(Cast(p, j.n))
    case Bool => j.JBool? && v == CBool(j.b)
    case Str => j.JStr? && v == CStr(JniStrings.FromJava(j.u))
    case Bin => j.JBin? && v == CBin(j.bytes)
    case Opt(base) => if j.JNull? then v == CNone else v.CSome? && BecomesCpp(base, j, v.v)
    case List(elem) =>
      j.JList? && v.CList? && |v.es| == |j.es| && forall i :: 0 <= i < |j.es| ==> BecomesCpp(elem, j.es[i], v.es[i])
    case Set(kt) => j.JSet? && v.CSet? && KeysBecomeCpp(kt, j.ks, v.ks)
    case Map(kt, val) =>
      && j.JMap? && v.CMap? && KeysBecomeCpp(kt, j.m.Keys, v.m.Keys)
      && EntriesBecomeCpp(kt, val, j.m, v.m)
  }

  ghost predicate EntriesBecomeCpp(kt: KeyTy, val: Ty, jm: map<JKey, Java>, m: map<CKey, Cpp>)
    decreases val, 2
  {
    forall k {:trigger EntryBecomesCpp(kt, val, jm, k, m[k])} :: k in m ==>
      EntryBecomesCpp(kt, val, jm, k, m[k])
  }

  ghost predicate EntryBecomesCpp(kt: KeyTy, val: Ty, jm: map<JKey, Java>, k: CKey, v: Cpp)
    decreases val, 1
  {
    exists jk :: jk in jm && JKeyFits(kt, jk) && KeyToCpp(kt, jk) == k && BecomesCpp(val, jm[jk], v)
  }

  // ---------------------------------------------------------------------------------------------
  // C++ to Java to C++
  // ---------------------------------------------------------------------------------------------

  /** All strings are well-formed UTF-8, and no optional contains an empty one. */
  predicate Clean(ty: Ty, v: Cpp)
    requires Fits(ty, v)
    decreases ty
  {
    match ty
    case Str => Utf8.WellFormed(v.s)
    case Opt(base) => v.CSome? ==> Clean(base, v.v) && !(base.Opt? && v.v.CNone?)
    case List(elem) => forall i :: 0 <= i < |v.es| ==> Clean(elem, v.es[i])
    case Set(kt) => forall k :: k in v.ks ==> KeyClean(k)
    case Map(kt, val) => forall k :: k in v.m ==> KeyClean(k) && Clean(val, v.m[k])
    case _ => true
  }

  lemma KeysThereAndBackIff(kt: KeyTy, ks: set<CKey>, js: set<JKey>, ks': set<CKey>)
    requires KeysBecomeJava(kt, ks, js) && KeysBecomeCpp(kt, js, ks') && forall k :: k in ks ==> KeyFits(kt, k)
    ensures ks' == ks <==> forall k :: k in ks ==> KeyClean(k)
  {
    forall k | k in ks
      ensures JKeyFits(kt, KeyToJava(kt, k)) && KeyToCpp(kt, KeyToJava(kt, k)) in ks'
      ensures KeyToCpp(kt, KeyToJava(kt, k)) == k <==> KeyClean(k)
    {
      KeyRoundTrip(kt, k);
    }
    forall k' | k' in ks'
      ensures KeyClean(k') && exists k :: k in ks && KeyToCpp(kt, KeyToJava(kt, k)) == k'
    {
      assert FromJavaKey(kt, js, k');
      var jk :| jk in js && JKeyFits(kt, jk) && KeyToCpp(kt, jk) == k';
      assert FromCppKey(kt, ks, jk);
      var k :| k in ks && KeyFits(kt, k) && KeyToJava(kt, k) == jk;
      KeyRoundTrip(kt, k);
    }
  }

  /** The value under a clean key comes from that key. */
  lemma ValueThereAndBack(kt: KeyTy, val: Ty, m: map<CKey, Cpp>, jm: map<JKey, Java>, k: CKey, v': Cpp)
    returns (j: Java)
    requires EntriesBecomeJava(kt, val, m, jm)
    requires EntryBecomesCpp(kt, val, jm, k, v') && forall k :: k in m ==> KeyFits(kt, k) && KeyClean(k)
    ensures k in m && BecomesJava(val, m[k], j) && BecomesCpp(val, j, v')
  {
    var jk :| jk in jm && JKeyFits(kt, jk) && KeyToCpp(kt, jk) == k && BecomesCpp(val, jm[jk], v');
    assert EntryBecomesJava(kt, val, m, jk, jm[jk]);
    var k1 :| k1 in m && KeyFits(kt, k1) && KeyToJava(kt, k1) == jk && BecomesJava(val, m[k1], jm[jk]);
    KeyRoundTrip(kt, k1);
    j := jm[jk];
  }

  lemma SameMapIff<K, V>(a: map<K, V>, b: map<K, V>)
    ensures b == a <==> b.Keys == a.Keys && forall k :: k in a ==> b[k] == a[k]
  {
    if b.Keys == a.Keys && forall k :: k in a ==> b[k] == a[k] {
      assert b == a;
    }
  }

  lemma {:induction false} ValueRoundTripIff(kt: KeyTy, val: Ty, m: map<CKey, Cpp>, jm: map<JKey, Java>, k: CKey,
                                             v': Cpp)
    requires EntriesBecomeJava(kt, val, m, jm)
    requires EntryBecomesCpp(kt, val, jm, k, v') && forall k :: k in m ==> KeyFits(kt, k) && KeyClean(k)
    requires k in m && Fits(val, m[k])
    ensures v' == m[k] <==> Clean(val, m[k])
    decreases val, 2
  {
    var j := ValueThereAndBack(kt, val, m, jm, k, v');
    CppRoundTripIff(val, m[k], j, v');
  }

  lemma {:induction false} ValuesRoundTripIff(kt: KeyTy, val: Ty, m: map<CKey, Cpp>, jm: map<JKey, Java>,
                                              m': map<CKey, Cpp>)
    requires EntriesBecomeJava(kt, val, m, jm)
    requires EntriesBecomeCpp(kt, val, jm, m')
    requires m'.Keys == m.Keys && forall k :: k in m ==> KeyFits(kt, k) && KeyClean(k) && Fits(val, m[k])
    ensures forall k :: k in m ==> (m'[k] == m[k] <==> Clean(val, m[k]))
    decreases val, 3
  {
    forall k | k in m
      ensures m'[k] == m[k] <==> Clean(val, m[k])
    {
      assert k in m';
      ValueRoundTripIff(kt, val, m, jm, k, m'[k]);
    }
  }

  lemma {:induction false} CppMapRoundTripIff(kt: KeyTy, val: Ty, m: map<CKey, Cpp>, jm: map<JKey, Java>,
                                              m': map<CKey, Cpp>)
    requires KeysBecomeJava(kt, m.Keys, jm.Keys) && KeysBecomeCpp(kt, jm.Keys, m'.Keys)
    requires EntriesBecomeJava(kt, val, m, jm)
    requires EntriesBecomeCpp(kt, val, jm, m')
    requires forall k :: k in m ==> KeyFits(kt, k) && Fits(val, m[k])
    ensures m' == m <==> forall k :: k in m ==> KeyClean(k) && Clean(val, m[k])
    decreases val, 4
  {
    KeysThereAndBackIff(kt, m.Keys, jm.Keys, m'.Keys);
    SameMapIff(m, m');
    if m'.Keys == m.Keys {
      ValuesRoundTripIff(kt, val, m, jm, m');
    }
  }

  /** Going over and back is the identity exactly on clean values. */
  lemma {:induction false} CppRoundTripIff(ty: Ty, v: Cpp, j: Java, v': Cpp)
    requires Fits(ty, v) && BecomesJava(ty, v, j) && BecomesCpp(ty, j, v')
    ensures v' == v <==> Clean(ty, v)
    decreases ty, 1
  {
    match ty
    case Num(p) => NumberRoundTrip(p, v.n);
    case Bool =>
    case Str => JniStrings.Utf8RoundTrip(v.s);
    case Bin =>
    case Opt(base) =>
      if v.CSome? {
        CppRoundTripIff(base, v.v, j, if j.JNull? then CNone else v'.v);
      }
    case List(elem) =>
      forall i | 0 <= i < |v.es|
        ensures v'.es[i] == v.es[i] <==> Clean(elem, v.es[i])
      {
        CppRoundTripIff(elem, v.es[i], j.es[i], v'.es[i]);
      }
    case Set(kt) => KeysThereAndBackIff(kt, v.ks, j.ks, v'.ks);
    case Map(kt, val) => CppMapRoundTripIff(kt, val, v.m, j.m, v'.m);
  }

  /** A string that is not well formed comes back as another one: here as the encoding of U+FFFD. */
  lemma IllFormedStringChanges(j: Java, v': Cpp)
    requires BecomesJava(Str, CStr([0xFF]), j) && BecomesCpp(Str, j, v')
    ensures v' == CStr([0xEF, 0xBF, 0xBD])
  {
    var s: Bytes := [0xFF];
    assert Utf8.Step(s, 0) == Utf8.OffsetPt(1, 0xFFFD) && s[1..] == [];
    assert Utf8.Decode(s) == [0xFFFD] && Utf16.EncodeAll([0xFFFD]) == [0xFFFD];
    var u: seq<Utf16.Unit> := [0xFFFD];
    Utf16.DecodeSingle(u);
    assert u[1..] == [] && Utf16.Decode(u) == [0xFFFD];
    assert Utf8.Encode(0xFFFD) == [0xEF, 0xBF, 0xBD];
    assert Utf8.EncodeAll([0xFFFD]) == [0xEF, 0xBF, 0xBD];
  }

  /** An empty optional inside an optional comes back as an empty one. The generator admits no such type; the
      templates would. */
  lemma InnerEmptyIsLost(j: Java, v': Cpp)
    requires BecomesJava(Opt(Opt(Bool)), CSome(CNone), j) && BecomesCpp(Opt(Opt(Bool)), j, v')
    ensures v' == CNone
  {
  }

  // ---------------------------------------------------------------------------------------------
  // Java to C++ to Java
  // ---------------------------------------------------------------------------------------------

  /** All strings have their surrogates paired, and all numbers are in the range of the C++ type. */
  predicate JClean(ty: Ty, j: Java)
    requires JFits(ty, j)
    decreases ty
  {
    match ty
    case Num(p) => InRange(p, j.n)
    case Str => Utf16.WellFormed(j.u)
    case Opt(base) => !j.JNull? ==> JClean(base, j)
    case List(elem) => forall i :: 0 <= i < |j.es| ==> JClean(elem, j.es[i])
    case Set(kt) => forall k :: k in j.ks ==> JKeyClean(kt, k)
    case Map(kt, val) => forall k :: k in j.m ==> JKeyClean(kt, k) && JClean(val, j.m[k])
    case _ => true
  }

  lemma JKeysThereAndBackIff(kt: KeyTy, js: set<JKey>, ks: set<CKey>, js': set<JKey>)
    requires KeysBecomeCpp(kt, js, ks) && KeysBecomeJava(kt, ks, js') && forall k :: k in js ==> JKeyFits(kt, k)
    ensures js' == js <==> forall k :: k in js ==> JKeyClean(kt, k)
  {
    forall k | k in js
      ensures KeyFits(kt, KeyToCpp(kt, k)) && KeyToJava(kt, KeyToCpp(kt, k)) in js'
      ensures KeyToJava(kt, KeyToCpp(kt, k)) == k <==> JKeyClean(kt, k)
    {
      JKeyRoundTrip(kt, k);
    }
    forall k' | k' in js'
      ensures JKeyFits(kt, k') && JKeyClean(kt, k') && exists k :: k in js && KeyToJava(kt, KeyToCpp(kt, k)) == k'
    {
      assert FromCppKey(kt, ks, k');
      var c :| c in ks && KeyFits(kt, c) && KeyToJava(kt, c) == k';
      assert FromJavaKey(kt, js, c);
      var k :| k in js && JKeyFits(kt, k) && KeyToCpp(kt, k) == c;
      JKeyRoundTrip(kt, k);
    }
  }

  lemma JValueThereAndBack(kt: KeyTy, val: Ty, m: map<JKey, Java>, cm: map<CKey, Cpp>, k: JKey, j': Java)
    returns (v: Cpp)
    requires EntriesBecomeCpp(kt, val, m, cm)
    requires EntryBecomesJava(kt, val, cm, k, j') && forall k :: k in m ==> JKeyFits(kt, k) && JKeyClean(kt, k)
    ensures k in m && BecomesCpp(val, m[k], v) && BecomesJava(val, v, j')
  {
    var c :| c in cm && KeyFits(kt, c) && KeyToJava(kt, c) == k && BecomesJava(val, cm[c], j');
    assert EntryBecomesCpp(kt, val, m, c, cm[c]);
    var k1 :| k1 in m && JKeyFits(kt, k1) && KeyToCpp(kt, k1) == c && BecomesCpp(val, m[k1], cm[c]);
    JKeyRoundTrip(kt, k1);
    v := cm[c];
  }

  lemma {:induction false} JValueRoundTripIff(kt: KeyTy, val: Ty, m: map<JKey, Java>, cm: map<CKey, Cpp>, k: JKey,
                                              j': Java)
    requires EntriesBecomeCpp(kt, val, m, cm)
    requires EntryBecomesJava(kt, val, cm, k, j') && forall k :: k in m ==> JKeyFits(kt, k) && JKeyClean(kt, k)
    requires k in m && JFits(val, m[k])
    ensures j' == m[k] <==> JClean(val, m[k])
    decreases val, 2
  {
    var v := JValueThereAndBack(kt, val, m, cm, k, j');
    JavaRoundTripIff(val, m[k], v, j');
  }

  lemma {:induction false} JavaMapRoundTripIff(kt: KeyTy, val: Ty, m: map<JKey, Java>, cm: map<CKey, Cpp>,
                                               m': map<JKey, Java>)
    requires KeysBecomeCpp(kt, m.Keys, cm.Keys) && KeysBecomeJava(kt, cm.Keys, m'.Keys)
    requires EntriesBecomeCpp(kt, val, m, cm)
    requires EntriesBecomeJava(kt, val, cm, m')
    requires forall k :: k in m ==> JKeyFits(kt, k) && JFits(val, m[k])
    ensures m' == m <==> forall k :: k in m ==> JKeyClean(kt, k) && JClean(val, m[k])
    decreases val, 3
  {
    JKeysThereAndBackIff(kt, m.Keys, cm.Keys, m'.Keys);
    if m'.Keys == m.Keys {
      forall k | k in m
        ensures m'[k] == m[k] <==> JClean(val, m[k])
      {
        JValueRoundTripIff(kt, val, m, cm, k, m'[k]);
      }
    }
    SameMapIff(m, m');
  }

  /** Null stands for the empty optional, however deep. */
  lemma {:induction false} JavaRoundTripIff(ty: Ty, j: Java, v: Cpp, j': Java)
    requires JFits(ty, j) && BecomesCpp(ty, j, v) && BecomesJava(ty, v, j')
    ensures j' == j <==> JClean(ty, j)
    decreases ty, 1
  {
    match ty
    case Num(p) => NumberRoundTrip(p, j.n);
    case Bool =>
    case Str => JniStrings.Utf16RoundTrip(j.u);
    case Bin =>
    case Opt(base) =>
      if !j.JNull? {
        JavaRoundTripIff(base, j, v.v, j');
      }
    case List(elem) =>
      forall i | 0 <= i < |j.es|
        ensures j'.es[i] == j.es[i] <==> JClean(elem, j.es[i])
      {
        JavaRoundTripIff(elem, j.es[i], v.es[i], j'.es[i]);
      }
    case Set(kt) => JKeysThereAndBackIff(kt, j.ks, v.ks, j'.ks);
    case Map(kt, val) => JavaMapRoundTripIff(kt, val, j.m, v.m, j'.m);
  }
  // ---------------------------------------------------------------------------------------------
  // The conversions as they are written
  // ---------------------------------------------------------------------------------------------

  method ToJava(ty: Ty, v: Cpp) returns (j: Java)
    requires Fits(ty, v)
    ensures BecomesJava(ty, v, j) && JFits(ty, j)
    decreases ty, 1
  {
    match ty
    case Num(p) =>
      CastIs(Unboxed(BoxOf(p)), v.n);
      j := JNum(BoxOf(p), Cast(Unboxed(BoxOf(p)), v.n));
    case Bool => j := JBool(v.b);
    case Str =>
      var u := JniStrings.StringFromUtf8(v.s);
      j := JStr(u);
    case Bin => j := JBin(v.bytes);
    case Opt(base) =>
      if v.CSome? {
        j := ToJava(base, v.v);
      } else {
        j := JNull;
      }
    case List(elem) =>
      var es: seq<Java> := [];
      for i := 0 to |v.es|
        invariant |es| == i
        invariant forall k :: 0 <= k < i ==> BecomesJava(elem, v.es[k], es[k]) && JFits(elem, es[k])
      {
        var e := ToJava(elem, v.es[i]);
        es := es + [e];
      }
      j := JList(es);
    case Set(kt) =>
      var ks := KeysToJava(kt, v.ks);
      j := JSet(ks);
    case Map(kt, val) =>
      ghost var visited, es;
      var m;
      m, visited, es := MapToJava(kt, val, v.m);
      j := JMap(m);
  }

  method KeysToJava(kt: KeyTy, ks: set<CKey>) returns (js: set<JKey>)
    requires forall k :: k in ks ==> KeyFits(kt, k)
    ensures KeysBecomeJava(kt, ks, js) && |js| <= |ks| && forall k :: k in js ==> JKeyFits(kt, k)
  {
    var todo := ks;
    js := {};
    while todo != {}
      invariant todo <= ks && KeysBecomeJava(kt, ks - todo, js) && |js| <= |ks| - |todo|
      invariant forall k :: k in js ==> JKeyFits(kt, k)
    {
      var k :| k in todo;
      KeyRoundTrip(kt, k);
      var jk := KeyToJava(kt, k);
      OneMoreKey(kt, ks - todo, k, js);
      assert ks - (todo - {k}) == ks - todo + {k};
      js, todo := js + {jk}, todo - {k};
    }
    assert ks - todo == ks;
  }

  lemma OneMoreKey(kt: KeyTy, ks: set<CKey>, k: CKey, js: set<JKey>)
    requires KeysBecomeJava(kt, ks, js) && KeyFits(kt, k)
    ensures KeysBecomeJava(kt, ks + {k}, js + {KeyToJava(kt, k)})
  {
    forall k' | k' in ks + {k}
      ensures KeyFits(kt, k') && KeyToJava(kt, k') in js + {KeyToJava(kt, k)}
    {
      assert k' in ks ==> KeyFits(kt, k') && KeyToJava(kt, k') in js;
    }
    forall jk | jk in js + {KeyToJava(kt, k)}
      ensures FromCppKey(kt, ks + {k}, jk)
    {
      if jk in js {
        assert FromCppKey(kt, ks, jk);
      } else {
        assert k in ks + {k};
      }
    }
  }

  /** `jm` is what the entries of `m` under the keys `done` have become. */
  ghost predicate PutSoFar(kt: KeyTy, val: Ty, m: map<CKey, Cpp>, done: set<CKey>, jm: map<JKey, Java>)
  {
    && KeysBecomeJava(kt, done, jm.Keys)
    && EntriesBecomeJava(kt, val, m, jm)
    && (forall jk :: jk in jm ==> JKeyFits(kt, jk) && JFits(val, jm[jk]))
  }

  lemma PutOneMore(kt: KeyTy, val: Ty, m: map<CKey, Cpp>, done: set<CKey>, jm: map<JKey, Java>, k: CKey, jv: Java)
    requires PutSoFar(kt, val, m, done, jm) && k in m && KeyFits(kt, k) && BecomesJava(val, m[k], jv) && JFits(val, jv)
    ensures PutSoFar(kt, val, m, done + {k}, jm[KeyToJava(kt, k) := jv])
  {
    KeyRoundTrip(kt, k);
    var key := KeyToJava(kt, k);
    var jm' := jm[key := jv];
    OneMoreKey(kt, done, k, jm.Keys);
    assert jm'.Keys == jm.Keys + {key};
    EntriesWith(kt, val, m, jm, k, jv);
  }

  lemma EntriesWith(kt: KeyTy, val: Ty, m: map<CKey, Cpp>, jm: map<JKey, Java>, k: CKey, jv: Java)
    requires EntriesBecomeJava(kt, val, m, jm) && k in m && KeyFits(kt, k) && BecomesJava(val, m[k], jv)
    ensures EntriesBecomeJava(kt, val, m, jm[KeyToJava(kt, k) := jv])
  {
    var key := KeyToJava(kt, k);
    assert EntryBecomesJava(kt, val, m, key, jv);
    forall jk | jk in jm && jk != key
      ensures EntryBecomesJava(kt, val, m, jk, jm[jk])
    {
    }
  }

  /** `put` replaces what an earlier entry left under the same key. */
  function PutAll<K, V>(es: seq<(K, V)>): map<K, V>
  {
    if es == [] then map[] else PutAll(es[..|es| - 1])[es[|es| - 1].0 := es[|es| - 1].1]
  }

  lemma {:induction false} PutAllSize<K, V>(es: seq<(K, V)>)
    ensures |PutAll(es)| <= |es|
  {
    if es != [] {
      var m, k, v := PutAll(es[..|es| - 1]), es[|es| - 1].0, es[|es| - 1].1;
      PutAllSize(es[..|es| - 1]);
      assert m[k := v].Keys == m.Keys + {k};
    }
  }

  /** So the last entry under a key stays. */
  lemma {:induction false} LastStays<K, V>(es: seq<(K, V)>, i: nat)
    requires i < |es| && forall j :: i < j < |es| ==> es[j].0 != es[i].0
    ensures es[i].0 in PutAll(es) && PutAll(es)[es[i].0] == es[i].1
  {
    if i < |es| - 1 {
      LastStays(es[..|es| - 1], i);
    }
  }

  /** The entries under `visited` have become `es`, in this order. */
  ghost predicate ConvertedToJava(kt: KeyTy, val: Ty, m: map<CKey, Cpp>, visited: seq<CKey>, es: seq<(JKey, Java)>)
  {
    && |es| == |visited|
    && forall i :: 0 <= i < |es| ==> EntryConvertedToJava(kt, val, m, visited[i], es[i])
  }

  ghost predicate EntryConvertedToJava(kt: KeyTy, val: Ty, m: map<CKey, Cpp>, k: CKey, e: (JKey, Java))
  {
    k in m && KeyFits(kt, k) && e.0 == KeyToJava(kt, k) && BecomesJava(val, m[k], e.1)
  }

  /** `visited` has the keys that are not in `rest`, each once. */
  ghost predicate VisitsAllBut<K(!new)>(keys: set<K>, rest: set<K>, visited: seq<K>)
  {
    && rest <= keys && |visited| == |keys| - |rest|
    && forall k :: k in visited <==> k in keys && k !in rest
  }

  lemma VisitsOneMore<K(!new)>(keys: set<K>, rest: set<K>, visited: seq<K>, k: K)
    requires VisitsAllBut(keys, rest, visited) && k in rest
    ensures VisitsAllBut(keys, rest - {k}, visited + [k])
  {
    assert |rest - {k}| == |rest| - 1;
  }

  lemma ConvertsOneMore(kt: KeyTy, val: Ty, m: map<CKey, Cpp>, visited: seq<CKey>, es: seq<(JKey, Java)>, k: CKey,
                        e: (JKey, Java))
    requires ConvertedToJava(kt, val, m, visited, es) && EntryConvertedToJava(kt, val, m, k, e)
    ensures ConvertedToJava(kt, val, m, visited + [k], es + [e]) && PutAll(es + [e]) == PutAll(es)[e.0 := e.1]
  {
    assert (es + [e])[..|es|] == es;
  }

  predicate JEntryFits(kt: KeyTy, val: Ty, jm: map<JKey, Java>, jk: JKey)
  {
    jk in jm && JKeyFits(kt, jk) && JFits(val, jm[jk])
  }

  predicate JEntriesFit(kt: KeyTy, val: Ty, jm: map<JKey, Java>)
  {
    forall jk {:trigger JEntryFits(kt, val, jm, jk)} :: jk in jm ==> JEntryFits(kt, val, jm, jk)
  }

  predicate EntryFits(kt: KeyTy, val: Ty, m: map<CKey, Cpp>, k: CKey) { k in m && KeyFits(kt, k) && Fits(val, m[k]) }

  predicate EntriesFit(kt: KeyTy, val: Ty, m: map<CKey, Cpp>)
  {
    forall k {:trigger EntryFits(kt, val, m, k)} :: k in m ==> EntryFits(kt, val, m, k)
  }

  /** Puts one entry after the other, in the order in which the C++ map yields them. */
  method MapToJava(kt: KeyTy, val: Ty, m: map<CKey, Cpp>)
    returns (jm: map<JKey, Java>, ghost visited: seq<CKey>, ghost es: seq<(JKey, Java)>)
    requires |m| <= JINT_MAX && EntriesFit(kt, val, m)
    ensures PutSoFar(kt, val, m, m.Keys, jm) && |jm| <= |m|
    ensures VisitsAllBut(m.Keys, {}, visited) && ConvertedToJava(kt, val, m, visited, es) && jm == PutAll(es)
    decreases val, 4
  {
    var todo := m.Keys;
    jm, visited, es := map[], [], [];
    assert m.Keys - todo == {};
    for i := 0 to |m|
      invariant |todo| == |m| - i && PutSoFar(kt, val, m, m.Keys - todo, jm)
      invariant VisitsAllBut(m.Keys, todo, visited) && ConvertedToJava(kt, val, m, visited, es) && jm == PutAll(es)
    {
      jm, todo, visited, es := NextEntryToJava(kt, val, m, todo, jm, visited, es);
    }
    assert todo == {} && m.Keys - todo == m.Keys;
    PutAllSize(es);
  }

  method NextEntryToJava(kt: KeyTy, val: Ty, m: map<CKey, Cpp>, todo: set<CKey>, jm: map<JKey, Java>,
                         ghost visited: seq<CKey>, ghost es: seq<(JKey, Java)>)
    returns (jm': map<JKey, Java>, todo': set<CKey>, ghost visited': seq<CKey>, ghost es': seq<(JKey, Java)>)
    requires todo <= m.Keys && todo != {} && PutSoFar(kt, val, m, m.Keys - todo, jm)
    requires EntriesFit(kt, val, m)
    requires VisitsAllBut(m.Keys, todo, visited) && ConvertedToJava(kt, val, m, visited, es) && jm == PutAll(es)
    ensures |todo'| == |todo| - 1 && PutSoFar(kt, val, m, m.Keys - todo', jm')
    ensures VisitsAllBut(m.Keys, todo', visited') && ConvertedToJava(kt, val, m, visited', es') && jm' == PutAll(es')
    decreases val, 3
  {
    var k :| k in todo;
    assert EntryFits(kt, val, m, k);
    var e := EntryToJava(kt, val, m, k);
    todo' := todo - {k};
    jm' := jm[e.0 := e.1];
    PutOneMore(kt, val, m, m.Keys - todo, jm, k, e.1);
    assert m.Keys - todo' == m.Keys - todo + {k};
    VisitsOneMore(m.Keys, todo, visited, k);
    ConvertsOneMore(kt, val, m, visited, es, k, e);
    visited', es' := visited + [k], es + [e];
  }

  method EntryToJava(kt: KeyTy, val: Ty, m: map<CKey, Cpp>, k: CKey) returns (e: (JKey, Java))
    requires k in m && KeyFits(kt, k) && Fits(val, m[k])
    ensures EntryConvertedToJava(kt, val, m, k, e) && JFits(val, e.1)
    decreases val, 2
  {
    var jv := ToJava(val, m[k]);
    e := (KeyToJava(kt, k), jv);
  }

  method ToCpp(ty: Ty, j: Java) returns (v: Cpp)
    requires JFits(ty, j)
    ensures BecomesCpp(ty, j, v) && Fits(ty, v)
    decreases ty, 1
  {
    match ty
    case Num(p) =>
      CastIs(p, j.n);
      v := CNum(Cast(p, j.n));
    case Bool => v := CBool(j.b);
    case Str =>
      var s := JniStrings.Utf8FromString(j.u);
      v := CStr(s);
    case Bin => v := CBin(j.bytes);
    case Opt(base) =>
      if !j.JNull? {
        var x := ToCpp(base, j);
        v := CSome(x);
      } else {
        v := CNone;
      }
    case List(elem) =>
      var es: seq<Cpp> := [];
      for i := 0 to |j.es|
        invariant |es| == i
        invariant forall k :: 0 <= k < i ==> BecomesCpp(elem, j.es[k], es[k]) && Fits(elem, es[k])
      {
        var e := ToCpp(elem, j.es[i]);
        es := es + [e];
      }
      v := CList(es);
    case Set(kt) =>
      var ks := KeysToCpp(kt, j.ks);
      v := CSet(ks);
    case Map(kt, val) =>
      ghost var visited, es;
      var m;
      m, visited, es := MapToCpp(kt, val, j.m);
      v := CMap(m);
  }

  /** Asks the iterator as often as the set has elements. */
  method KeysToCpp(kt: KeyTy, js: set<JKey>) returns (ks: set<CKey>)
    requires forall k :: k in js ==> JKeyFits(kt, k)
    ensures KeysBecomeCpp(kt, js, ks) && |ks| <= |js| && forall k :: k in ks ==> KeyFits(kt, k)
  {
    var rest := js;
    ks := {};
    for i := 0 to |js|
      invariant rest <= js && |rest| == |js| - i && KeysBecomeCpp(kt, js - rest, ks) && |ks| <= i
      invariant forall k :: k in ks ==> KeyFits(kt, k)
    {
      var jk :| jk in rest;
      JKeyRoundTrip(kt, jk);
      OneMoreJKey(kt, js - rest, jk, ks);
      assert js - (rest - {jk}) == js - rest + {jk};
      ks, rest := ks + {KeyToCpp(kt, jk)}, rest - {jk};
    }
    assert js - rest == js;
  }

  lemma OneMoreJKey(kt: KeyTy, js: set<JKey>, jk: JKey, ks: set<CKey>)
    requires KeysBecomeCpp(kt, js, ks) && JKeyFits(kt, jk)
    ensures KeysBecomeCpp(kt, js + {jk}, ks + {KeyToCpp(kt, jk)})
  {
    forall k' | k' in js + {jk}
      ensures JKeyFits(kt, k') && KeyToCpp(kt, k') in ks + {KeyToCpp(kt, jk)}
    {
      assert k' in js ==> JKeyFits(kt, k') && KeyToCpp(kt, k') in ks;
    }
    forall k | k in ks + {KeyToCpp(kt, jk)}
      ensures FromJavaKey(kt, js + {jk}, k)
    {
      if k in ks {
        assert FromJavaKey(kt, js, k);
      } else {
        assert jk in js + {jk};
      }
    }
  }

  /** `m` is what the entries of `jm` under the keys `done` have become. */
  ghost predicate EmplacedSoFar(kt: KeyTy, val: Ty, jm: map<JKey, Java>, done: set<JKey>, m: map<CKey, Cpp>)
  {
    && KeysBecomeCpp(kt, done, m.Keys)
    && EntriesBecomeCpp(kt, val, jm, m)
    && (forall k :: k in m ==> KeyFits(kt, k) && Fits(val, m[k]))
  }

  lemma EmplaceAnother(kt: KeyTy, val: Ty, jm: map<JKey, Java>, done: set<JKey>, m: map<CKey, Cpp>, jk: JKey, v: Cpp)
    requires EmplacedSoFar(kt, val, jm, done, m) && jk in jm && JKeyFits(kt, jk) && BecomesCpp(val, jm[jk], v)
    requires Fits(val, v)
    ensures EmplacedSoFar(kt, val, jm, done + {jk}, m[KeyToCpp(kt, jk) := v])
  {
    JKeyRoundTrip(kt, jk);
    var key := KeyToCpp(kt, jk);
    var m' := m[key := v];
    OneMoreJKey(kt, done, jk, m.Keys);
    assert m'.Keys == m.Keys + {key};
    JEntriesWith(kt, val, jm, m, jk, v);
  }

  lemma JEntriesWith(kt: KeyTy, val: Ty, jm: map<JKey, Java>, m: map<CKey, Cpp>, jk: JKey, v: Cpp)
    requires EntriesBecomeCpp(kt, val, jm, m) && jk in jm && JKeyFits(kt, jk) && BecomesCpp(val, jm[jk], v)
    ensures EntriesBecomeCpp(kt, val, jm, m[KeyToCpp(kt, jk) := v])
  {
    var key := KeyToCpp(kt, jk);
    assert EntryBecomesCpp(kt, val, jm, key, v);
    forall k | k in m && k != key
      ensures EntryBecomesCpp(kt, val, jm, k, m[k])
    {
    }
  }

  lemma EmplaceOneMore(kt: KeyTy, val: Ty, jm: map<JKey, Java>, done: set<JKey>, m: map<CKey, Cpp>, jk: JKey, v: Cpp)
    requires EmplacedSoFar(kt, val, jm, done, m) && jk in jm && JKeyFits(kt, jk) && BecomesCpp(val, jm[jk], v)
    requires Fits(val, v)
    ensures EmplacedSoFar(kt, val, jm, done + {jk}, Emplace(m, KeyToCpp(kt, jk), v))
  {
    if KeyToCpp(kt, jk) in m {
      OneMoreJKey(kt, done, jk, m.Keys);
      assert m.Keys + {KeyToCpp(kt, jk)} == m.Keys;
    } else {
      EmplaceAnother(kt, val, jm, done, m, jk, v);
    }
  }

  /** `emplace` keeps what an earlier key left that became the same C++ key. */
  function Emplace(m: map<CKey, Cpp>, k: CKey, v: Cpp): map<CKey, Cpp> { if k in m then m else m[k := v] }

  function EmplaceAll(es: seq<(CKey, Cpp)>): map<CKey, Cpp>
  {
    if es == [] then map[] else Emplace(EmplaceAll(es[..|es| - 1]), es[|es| - 1].0, es[|es| - 1].1)
  }

  lemma {:induction false} EmplaceAllSize(es: seq<(CKey, Cpp)>)
    ensures |EmplaceAll(es)| <= |es|
  {
    if es != [] {
      var m, k, v := EmplaceAll(es[..|es| - 1]), es[|es| - 1].0, es[|es| - 1].1;
      EmplaceAllSize(es[..|es| - 1]);
      assert m[k := v].Keys == m.Keys + {k};
    }
  }

  /** So the first entry under a key stays. */
  lemma {:induction false} FirstStays(es: seq<(CKey, Cpp)>, i: nat)
    requires i < |es| && forall j :: 0 <= j < i ==> es[j].0 != es[i].0
    ensures es[i].0 in EmplaceAll(es) && EmplaceAll(es)[es[i].0] == es[i].1
  {
    if i < |es| - 1 {
      FirstStays(es[..|es| - 1], i);
    } else {
      EmplacedKeys(es[..i]);
    }
  }

  lemma {:induction false} EmplacedKeys(es: seq<(CKey, Cpp)>)
    ensures forall k :: k in EmplaceAll(es) ==> exists j :: 0 <= j < |es| && es[j].0 == k
  {
    if es != [] {
      var before := es[..|es| - 1];
      EmplacedKeys(before);
      forall k | k in EmplaceAll(es) ensures exists j :: 0 <= j < |es| && es[j].0 == k {
        if k in EmplaceAll(before) {
          var j :| 0 <= j < |before| && before[j].0 == k;
          assert es[j].0 == k;
        } else {
          assert es[|es| - 1].0 == k;
        }
      }
    }
  }

  ghost predicate ConvertedToCpp(kt: KeyTy, val: Ty, jm: map<JKey, Java>, visited: seq<JKey>, es: seq<(CKey, Cpp)>)
  {
    && |es| == |visited|
    && forall i :: 0 <= i < |es| ==> EntryConvertedToCpp(kt, val, jm, visited[i], es[i])
  }

  ghost predicate EntryConvertedToCpp(kt: KeyTy, val: Ty, jm: map<JKey, Java>, jk: JKey, e: (CKey, Cpp))
  {
    jk in jm && JKeyFits(kt, jk) && e.0 == KeyToCpp(kt, jk) && BecomesCpp(val, jm[jk], e.1)
  }

  lemma JConvertsOneMore(kt: KeyTy, val: Ty, jm: map<JKey, Java>, visited: seq<JKey>, es: seq<(CKey, Cpp)>, jk: JKey,
                         e: (CKey, Cpp))
    requires ConvertedToCpp(kt, val, jm, visited, es) && EntryConvertedToCpp(kt, val, jm, jk, e)
    ensures ConvertedToCpp(kt, val, jm, visited + [jk], es + [e])
    ensures EmplaceAll(es + [e]) == Emplace(EmplaceAll(es), e.0, e.1)
  {
    assert (es + [e])[..|es|] == es;
  }

  /** Emplaces one entry after the other, in the order in which the iterator yields them. */
  method MapToCpp(kt: KeyTy, val: Ty, jm: map<JKey, Java>)
    returns (m: map<CKey, Cpp>, ghost visited: seq<JKey>, ghost es: seq<(CKey, Cpp)>)
    requires |jm| <= JINT_MAX && JEntriesFit(kt, val, jm)
    ensures EmplacedSoFar(kt, val, jm, jm.Keys, m) && |m| <= |jm|
    ensures VisitsAllBut(jm.Keys, {}, visited) && ConvertedToCpp(kt, val, jm, visited, es) && m == EmplaceAll(es)
    decreases val, 4
  {
    var rest := jm.Keys;
    m, visited, es := map[], [], [];
    assert jm.Keys - rest == {};
    for i := 0 to |jm|
      invariant |rest| == |jm| - i && EmplacedSoFar(kt, val, jm, jm.Keys - rest, m)
      invariant VisitsAllBut(jm.Keys, rest, visited) && ConvertedToCpp(kt, val, jm, visited, es) && m == EmplaceAll(es)
    {
      m, rest, visited, es := NextEntryToCpp(kt, val, jm, rest, m, visited, es);
    }
    assert rest == {} && jm.Keys - rest == jm.Keys;
    EmplaceAllSize(es);
  }

  method NextEntryToCpp(kt: KeyTy, val: Ty, jm: map<JKey, Java>, rest: set<JKey>, m: map<CKey, Cpp>,
                        ghost visited: seq<JKey>, ghost es: seq<(CKey, Cpp)>)
    returns (m': map<CKey, Cpp>, rest': set<JKey>, ghost visited': seq<JKey>, ghost es': seq<(CKey, Cpp)>)
    requires rest <= jm.Keys && rest != {} && EmplacedSoFar(kt, val, jm, jm.Keys - rest, m)
    requires JEntriesFit(kt, val, jm)
    requires VisitsAllBut(jm.Keys, rest, visited) && ConvertedToCpp(kt, val, jm, visited, es) && m == EmplaceAll(es)
    ensures |rest'| == |rest| - 1 && EmplacedSoFar(kt, val, jm, jm.Keys - rest', m')
    ensures VisitsAllBut(jm.Keys, rest', visited') && ConvertedToCpp(kt, val, jm, visited', es')
    ensures m' == EmplaceAll(es')
    decreases val, 3
  {
    var jk :| jk in rest;
    assert JEntryFits(kt, val, jm, jk);
    var e := EntryToCpp(kt, val, jm, jk);
    rest' := rest - {jk};
    m' := Emplace(m, e.0, e.1);
    EmplaceOneMore(kt, val, jm, jm.Keys - rest, m, jk, e.1);
    assert jm.Keys - rest' == jm.Keys - rest + {jk};
    VisitsOneMore(jm.Keys, rest, visited, jk);
    JConvertsOneMore(kt, val, jm, visited, es, jk, e);
    visited', es' := visited + [jk], es + [e];
  }

  method EntryToCpp(kt: KeyTy, val: Ty, jm: map<JKey, Java>, jk: JKey) returns (e: (CKey, Cpp))
    requires jk in jm && JKeyFits(kt, jk) && JFits(val, jm[jk])
    ensures EntryConvertedToCpp(kt, val, jm, jk, e) && Fits(val, e.1)
    decreases val, 2
  {
    var v := ToCpp(val, jm[jk]);
    e := (KeyToCpp(kt, jk), v);
  }

  // ---------------------------------------------------------------------------------------------
  // Whole crossings
  // ---------------------------------------------------------------------------------------------

  method CppThereAndBack(ty: Ty, v: Cpp) returns (v': Cpp)
    requires Fits(ty, v)
    ensures v' == v <==> Clean(ty, v)
  {
    var j := ToJava(ty, v);
    v' := ToCpp(ty, j);
    CppRoundTripIff(ty, v, j, v');
  }

  method JavaThereAndBack(ty: Ty, j: Java) returns (j': Java)
    requires JFits(ty, j)
    ensures j' == j <==> JClean(ty, j)
  {
    var v := ToCpp(ty, j);
    j' := ToJava(ty, v);
    JavaRoundTripIff(ty, j, v, j');
  }
}

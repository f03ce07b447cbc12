/**
  The values that travel between C++ and Python, by type: numbers, strings, binaries, optionals, lists, sets,
  maps and records, nested at will. A C++ string is UTF-8 bytes, a Python string is code points.
 */
module PyValues {
  import Utf8

  type Bytes = seq<Utf8.Byte>
  type Text = seq<Utf8.CodePoint>

  datatype KeyTy = IntKey(lo: int, hi: int) | StrKey

  /** `lo` and `hi` are the bounds of the C++ integer type. Two records of different name differ. */
  datatype Ty =
    | TInt(lo: int, hi: int)
    | TStr
    | TBin
    | TOpt(base: Ty)
    | TList(elem: Ty)
    | TSet(key: KeyTy)
    | TMap(key: KeyTy, val: Ty)
    | TRec(name: nat, fields: seq<Ty>)

  datatype Key = KInt(n: int) | KStr(s: Bytes)

  datatype Cpp =
    | CInt(n: int)
    | CStr(s: Bytes)
    | CBin(b: Bytes)
    | CNone
    | CSome(v: Cpp)
    | CList(es: seq<Cpp>)
    | CSet(ks: set<Key>)
    | CMap(m: map<Key, Cpp>)
    | CRec(fs: seq<Cpp>)

  datatype PyKey = PKInt(n: int) | PKStr(t: Text)

  datatype Py =
    | PInt(n: int)
    | PStr(t: Text)
    | PBin(b: Bytes)
    | PNone
    | PList(es: seq<Py>)
    | PSet(ks: set<PyKey>)
    | PDict(m: map<PyKey, Py>)
    | PRec(fs: seq<Py>)

  // ---------------------------------------------------------------------------------------------
  // Values of a type, on either side
  // ---------------------------------------------------------------------------------------------

  predicate KeyFits(kt: KeyTy, k: Key)
  {
    match kt
    case IntKey(lo, hi) => k.KInt? && lo <= k.n <= hi
    case StrKey => k.KStr?
  }

  /** Strict decoding accepts the key. */
  predicate KeyDecodes(k: Key) { k.KStr? ==> Utf8.WellFormed(k.s) }

  predicate KeyDecodable(kt: KeyTy, k: Key) { KeyFits(kt, k) && KeyDecodes(k) }

  predicate PyKeyFits(kt: KeyTy, k: PyKey)
  {
    match kt
    case IntKey(lo, hi) => k.PKInt? && lo <= k.n <= hi
    case StrKey => k.PKStr? && Utf8.AllScalar(k.t)
  }

  /** A value of the C++ type. A string holds any bytes. */
  predicate Fits(ty: Ty, v: Cpp)
    decreases ty
  {
    match ty
    case TInt(lo, hi) => v.CInt? && lo <= v.n <= hi
    case TStr => v.CStr?
    case TBin => v.CBin?
    case TOpt(base) => !base.TOpt? && (v.CNone? || (v.CSome? && Fits(base, v.v)))
    case TList(elem) => v.CList? && forall e :: e in v.es ==> Fits(elem, e)
    case TSet(kt) => v.CSet? && forall k :: k in v.ks ==> KeyFits(kt, k)
    case TMap(kt, val) => v.CMap? && forall k :: k in v.m ==> KeyFits(kt, k) && Fits(val, v.m[k])
    case TRec(_, fields) =>
      v.CRec? && |v.fs| == |fields| && forall i :: 0 <= i < |fields| ==> Fits(fields[i], v.fs[i])
  }

  /** A value of the C++ type, all of whose strings are well-formed UTF-8. */
  predicate Decodable(ty: Ty, v: Cpp)
    decreases ty
  {
    match ty
    case TInt(lo, hi) => v.CInt? && lo <= v.n <= hi
    case TStr => v.CStr? && Utf8.WellFormed(v.s)
    case TBin => v.CBin?
    case TOpt(base) => !base.TOpt? && (v.CNone? || (v.CSome? && Decodable(base, v.v)))
    case TList(elem) => v.CList? && forall e :: e in v.es ==> Decodable(elem, e)
    case TSet(kt) => v.CSet? && forall k :: k in v.ks ==> KeyDecodable(kt, k)
    case TMap(kt, val) => v.CMap? && forall k :: k in v.m ==> KeyDecodable(kt, k) && Decodable(val, v.m[k])
    case TRec(_, fields) =>
      v.CRec? && |v.fs| == |fields| && forall i :: 0 <= i < |fields| ==> Decodable(fields[i], v.fs[i])
  }

  predicate PyFits(ty: Ty, p: Py)
    decreases ty
  {
    match ty
    case TInt(lo, hi) => p.PInt? && lo <= p.n <= hi
    case TStr => p.PStr? && Utf8.AllScalar(p.t)
    case TBin => p.PBin?
    case TOpt(base) => !base.TOpt? && (p.PNone? || PyFits(base, p))
    case TList(elem) => p.PList? && forall e :: e in p.es ==> PyFits(elem, e)
    case TSet(kt) => p.PSet? && forall k :: k in p.ks ==> PyKeyFits(kt, k)
    case TMap(kt, val) => p.PDict? && forall k :: k in p.m ==> PyKeyFits(kt, k) && PyFits(val, p.m[k])
    case TRec(_, fields) =>
      p.PRec? && |p.fs| == |fields| && forall i :: 0 <= i < |fields| ==> PyFits(fields[i], p.fs[i])
  }

  // ---------------------------------------------------------------------------------------------
  // The same value on the other side
  // ---------------------------------------------------------------------------------------------

  function KeyToPy(k: Key): PyKey
  {
    match k
    case KInt(n) => PKInt(n)
    case KStr(s) => PKStr(Utf8.Decode(s))
  }

  function KeyToCpp(k: PyKey): Key
  {
    match k
    case PKInt(n) => KInt(n)
    case PKStr(t) => KStr(Utf8.EncodeAll(t))
  }

  lemma KeyRoundTrip(kt: KeyTy, k: Key)
    requires KeyDecodable(kt, k)
    ensures PyKeyFits(kt, KeyToPy(k)) && KeyToCpp(KeyToPy(k)) == k
  {
    if k.KStr? { Utf8.DecodeWellFormed(k.s); }
  }

  lemma PyKeyRoundTrip(kt: KeyTy, k: PyKey)
    requires PyKeyFits(kt, k)
    ensures KeyDecodable(kt, KeyToCpp(k)) && KeyToPy(KeyToCpp(k)) == k
  {
    if k.PKStr? {
      Utf8.EncodeAllWellFormed(k.t);
      Utf8.DecodeOfEncodeAll(k.t);
    }
  }

  function KeysToPy(ks: set<Key>): set<PyKey> { set k | k in ks :: KeyToPy(k) }

  function KeysToCpp(ks: set<PyKey>): set<Key> { set k | k in ks :: KeyToCpp(k) }

  /** Keys of a type stay as many and as they are: going over and back gives the same set. */
  lemma PyKeysOf(kt: KeyTy, ks: set<Key>)
    requires forall k :: k in ks ==> KeyDecodable(kt, k)
    ensures forall k :: k in KeysToPy(ks) ==> PyKeyFits(kt, k) && KeyToCpp(k) in ks && KeyToPy(KeyToCpp(k)) == k
    ensures KeysToCpp(KeysToPy(ks)) == ks
  {
    forall k | k in ks
      ensures PyKeyFits(kt, KeyToPy(k)) && KeyToCpp(KeyToPy(k)) == k
    {
      KeyRoundTrip(kt, k);
    }
  }

  lemma CppKeysOf(kt: KeyTy, ks: set<PyKey>)
    requires forall k :: k in ks ==> PyKeyFits(kt, k)
    ensures forall k :: k in KeysToCpp(ks) ==> KeyDecodable(kt, k) && KeyToPy(k) in ks && KeyToCpp(KeyToPy(k)) == k
    ensures KeysToPy(KeysToCpp(ks)) == ks
  {
    forall k | k in ks
      ensures KeyDecodable(kt, KeyToCpp(k)) && KeyToPy(KeyToCpp(k)) == k
    {
      PyKeyRoundTrip(kt, k);
    }
  }

  function ToPy(ty: Ty, v: Cpp): Py
    requires Decodable(ty, v)
    decreases ty
  {
    match ty
    case TInt(_, _) => PInt(v.n)
    case TStr => PStr(Utf8.Decode(v.s))
    case TBin => PBin(v.b)
    case TOpt(base) => if v.CNone? then PNone else ToPy(base, v.v)
    case TList(elem) => PList(seq(|v.es|, i requires 0 <= i < |v.es| => ToPy(elem, v.es[i])))
    case TSet(_) => PSet(KeysToPy(v.ks))
    case TMap(kt, val) =>
      PyKeysOf(kt, v.m.Keys);
      PDict(map k | k in KeysToPy(v.m.Keys) :: ToPy(val, v.m[KeyToCpp(k)]))
    case TRec(_, fields) => PRec(seq(|fields|, i requires 0 <= i < |fields| => ToPy(fields[i], v.fs[i])))
  }

  function ToCpp(ty: Ty, p: Py): Cpp
    requires PyFits(ty, p)
    decreases ty
  {
    match ty
    case TInt(_, _) => CInt(p.n)
    case TStr => CStr(Utf8.EncodeAll(p.t))
    case TBin => CBin(p.b)
    case TOpt(base) => if p.PNone? then CNone else CSome(ToCpp(base, p))
    case TList(elem) => CList(seq(|p.es|, i requires 0 <= i < |p.es| => ToCpp(elem, p.es[i])))
    case TSet(_) => CSet(KeysToCpp(p.ks))
    case TMap(kt, val) =>
      CppKeysOf(kt, p.m.Keys);
      CMap(map k | k in KeysToCpp(p.m.Keys) :: ToCpp(val, p.m[KeyToPy(k)]))
    case TRec(_, fields) => CRec(seq(|fields|, i requires 0 <= i < |fields| => ToCpp(fields[i], p.fs[i])))
  }

  lemma SameMap<K, V>(a: map<K, V>, b: map<K, V>)
    requires a.Keys == b.Keys && forall k :: k in a ==> b[k] == a[k]
    ensures b == a
  {
  }

  /** The dict made of a map: its keys, and the value under each. */
  lemma DictOfMap(kt: KeyTy, val: Ty, m: map<Key, Cpp>)
    requires Decodable(TMap(kt, val), CMap(m))
    ensures var d := ToPy(TMap(kt, val), CMap(m)).m;
            d.Keys == KeysToPy(m.Keys) && forall k :: k in m ==> KeyToPy(k) in d && d[KeyToPy(k)] == ToPy(val, m[k])
  {
    PyKeysOf(kt, m.Keys);
    forall k | k in m
      ensures KeyToPy(k) in KeysToPy(m.Keys) && KeyToCpp(KeyToPy(k)) == k
    {
      KeyRoundTrip(kt, k);
    }
  }

  lemma MapThereAndBack(kt: KeyTy, val: Ty, m: map<Key, Cpp>)
    requires Decodable(TMap(kt, val), CMap(m))
    requires forall k :: k in m ==> PyFits(val, ToPy(val, m[k])) && ToCpp(val, ToPy(val, m[k])) == m[k]
    ensures var p := ToPy(TMap(kt, val), CMap(m));
            PyFits(TMap(kt, val), p) && ToCpp(TMap(kt, val), p) == CMap(m)
  {
    var d := ToPy(TMap(kt, val), CMap(m)).m;
    DictOfMap(kt, val, m);
    forall k | k in d
      ensures PyKeyFits(kt, k) && PyFits(val, d[k])
    {
      var c :| c in m && KeyToPy(c) == k;
      KeyRoundTrip(kt, c);
    }
    MapOfDict(kt, val, d);
    PyKeysOf(kt, m.Keys);
    var back := ToCpp(TMap(kt, val), PDict(d)).m;
    forall k | k in m
      ensures back[k] == m[k]
    {
      KeyRoundTrip(kt, k);
      assert KeyToPy(k) in d;
    }
    SameMap(m, back);
  }

  /** A C++ value, seen from Python and taken back, is the same value. */
  lemma {:induction false} CppRoundTrip(ty: Ty, v: Cpp)
    requires Decodable(ty, v)
    ensures PyFits(ty, ToPy(ty, v)) && ToCpp(ty, ToPy(ty, v)) == v
    decreases ty
  {
    match ty
    case TInt(_, _) =>
    case TBin =>
    case TStr => Utf8.DecodeWellFormed(v.s);
    case TOpt(base) =>
      if v.CSome? {
        CppRoundTrip(base, v.v);
      }
    case TList(elem) =>
      forall i | 0 <= i < |v.es|
        ensures PyFits(elem, ToPy(elem, v.es[i])) && ToCpp(elem, ToPy(elem, v.es[i])) == v.es[i]
      {
        CppRoundTrip(elem, v.es[i]);
      }
    case TSet(kt) => PyKeysOf(kt, v.ks);
    case TMap(kt, val) =>
      forall k | k in v.m
        ensures PyFits(val, ToPy(val, v.m[k])) && ToCpp(val, ToPy(val, v.m[k])) == v.m[k]
      {
        CppRoundTrip(val, v.m[k]);
      }
      MapThereAndBack(kt, val, v.m);
    case TRec(_, fields) =>
      forall i | 0 <= i < |fields|
        ensures PyFits(fields[i], ToPy(fields[i], v.fs[i])) && ToCpp(fields[i], ToPy(fields[i], v.fs[i])) == v.fs[i]
      {
        CppRoundTrip(fields[i], v.fs[i]);
      }
  }

  lemma MapOfDict(kt: KeyTy, val: Ty, m: map<PyKey, Py>)
    requires PyFits(TMap(kt, val), PDict(m))
    ensures var c := ToCpp(TMap(kt, val), PDict(m)).m;
            c.Keys == KeysToCpp(m.Keys) && forall k :: k in m ==> KeyToCpp(k) in c && c[KeyToCpp(k)] == ToCpp(val, m[k])
  {
    CppKeysOf(kt, m.Keys);
    forall k | k in m
      ensures KeyToCpp(k) in KeysToCpp(m.Keys) && KeyToPy(KeyToCpp(k)) == k
    {
      PyKeyRoundTrip(kt, k);
    }
  }

  lemma DictThereAndBack(kt: KeyTy, val: Ty, m: map<PyKey, Py>)
    requires PyFits(TMap(kt, val), PDict(m))
    requires forall k :: k in m ==> Decodable(val, ToCpp(val, m[k])) && ToPy(val, ToCpp(val, m[k])) == m[k]
    ensures var c := ToCpp(TMap(kt, val), PDict(m));
            Decodable(TMap(kt, val), c) && ToPy(TMap(kt, val), c) == PDict(m)
  {
    var c := ToCpp(TMap(kt, val), PDict(m)).m;
    MapOfDict(kt, val, m);
    forall k | k in c
      ensures KeyDecodable(kt, k) && Decodable(val, c[k])
    {
      var p :| p in m && KeyToCpp(p) == k;
      PyKeyRoundTrip(kt, p);
    }
    DictOfMap(kt, val, c);
    CppKeysOf(kt, m.Keys);
    var back := ToPy(TMap(kt, val), CMap(c)).m;
    forall k | k in m
      ensures back[k] == m[k]
    {
      PyKeyRoundTrip(kt, k);
      assert KeyToCpp(k) in c;
    }
    SameMap(m, back);
  }

  /** A Python value, taken to C++ and back, is the same value. */
  lemma {:induction false} PyRoundTrip(ty: Ty, p: Py)
    requires PyFits(ty, p)
    ensures Decodable(ty, ToCpp(ty, p)) && ToPy(ty, ToCpp(ty, p)) == p
    decreases ty
  {
    match ty
    case TInt(_, _) =>
    case TBin =>
    case TStr =>
      Utf8.EncodeAllWellFormed(p.t);
      Utf8.DecodeOfEncodeAll(p.t);
    case TOpt(base) =>
      if !p.PNone? {
        PyRoundTrip(base, p);
      }
    case TList(elem) =>
      forall i | 0 <= i < |p.es|
        ensures Decodable(elem, ToCpp(elem, p.es[i])) && ToPy(elem, ToCpp(elem, p.es[i])) == p.es[i]
      {
        PyRoundTrip(elem, p.es[i]);
      }
    case TSet(kt) => CppKeysOf(kt, p.ks);
    case TMap(kt, val) =>
      forall k | k in p.m
        ensures Decodable(val, ToCpp(val, p.m[k])) && ToPy(val, ToCpp(val, p.m[k])) == p.m[k]
      {
        PyRoundTrip(val, p.m[k]);
      }
      DictThereAndBack(kt, val, p.m);
    case TRec(_, fields) =>
      forall i | 0 <= i < |fields|
        ensures Decodable(fields[i], ToCpp(fields[i], p.fs[i])) && ToPy(fields[i], ToCpp(fields[i], p.fs[i])) == p.fs[i]
      {
        PyRoundTrip(fields[i], p.fs[i]);
      }
  }
}

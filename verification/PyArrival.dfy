/**
  What becomes of a C++ value on its way to Python. Python decodes strings strictly, in callbacks that do not catch
  what the decoder raises: an element is then missing from its container, a record does not come about, and what
  the callback had not taken over yet stays behind, owned by nobody who would ever give it up.
 */
module PyArrival {
  import opened Options
  import opened PyValues
  import Utf8

  /** The iterator of a set or dict proxy is made together with the proxy, over the keys the object then has. */
  datatype Iter = Iter(made: set<PyKey>, left: set<PyKey>)

  const NO_ITER := Iter({}, {})

  /** What a pointer can own: a native object, or a registered handle to a Python object. */
  datatype Res =
    | String(s: Bytes)
    | Binary(b: Bytes)
    | Boxed(n: int)
    | Handle(ty: Ty, val: Py, iter: Iter)

  /** What crosses the C boundary for a value: a null pointer, a number, or a pointer that owns something. */
  datatype Parcel = Empty | Value(n: int) | Owned(res: Res)

  function ResOf(parcel: Parcel): multiset<Res> { if parcel.Owned? then multiset{parcel.res} else multiset{} }

  function KeysOf(p: Py): set<PyKey> { if p.PSet? then p.ks else if p.PDict? then p.m.Keys else {} }

  /** What Python sends for a value of its own. */
  function Offer(ty: Ty, p: Py): Parcel
    requires PyFits(ty, p)
    decreases ty
  {
    match ty
    case TInt(_, _) => Value(p.n)
    case TStr => Owned(String(Utf8.EncodeAll(p.t)))
    case TBin => Owned(Binary(p.b))
    case TOpt(base) =>
      if p.PNone? then Empty else
      assert PyFits(base, p);
      if base.TInt? then Owned(Boxed(p.n)) else Offer(base, p)
    case _ => Owned(Handle(ty, p, Iter(KeysOf(p), KeysOf(p))))
  }

  // ---------------------------------------------------------------------------------------------
  // Sequences and maps some of whose values are missing, and sums
  // ---------------------------------------------------------------------------------------------

  function Present<T>(os: seq<Option<T>>): seq<T>
  {
    if os == [] then [] else
    var last := os[|os| - 1];
    Present(os[..|os| - 1]) + if last.Some? then [last.value] else []
  }

  lemma {:induction false} PresentAll<T>(os: seq<Option<T>>)
    requires forall i :: 0 <= i < |os| ==> os[i].Some?
    ensures |Present(os)| == |os| && forall i :: 0 <= i < |os| ==> Present(os)[i] == os[i].value
  {
    if os != [] {
      PresentAll(os[..|os| - 1]);
    }
  }

  lemma {:induction false} PresentFrom<T>(os: seq<Option<T>>, p: T)
    requires p in Present(os)
    ensures Some(p) in os
  {
    var last := os[|os| - 1];
    if p in Present(os[..|os| - 1]) {
      PresentFrom(os[..|os| - 1], p);
    } else {
      assert last == Some(p);
    }
  }

  function PresentIn<K, V>(os: map<K, Option<V>>): map<K, V> { map k | k in os && os[k].Some? :: os[k].value }

  function Rekeyed(kt: KeyTy, d: map<Key, Py>): map<PyKey, Py>
    requires forall k :: k in d ==> KeyDecodable(kt, k)
  {
    PyKeysOf(kt, d.Keys);
    map k | k in KeysToPy(d.Keys) :: d[KeyToCpp(k)]
  }

  lemma RekeyedOneMore(kt: KeyTy, d: map<Key, Py>, k: Key, p: Py)
    requires (forall k :: k in d ==> KeyDecodable(kt, k)) && KeyDecodable(kt, k)
    ensures Rekeyed(kt, d[k := p]) == Rekeyed(kt, d)[KeyToPy(k) := p]
  {
    var r, r' := Rekeyed(kt, d)[KeyToPy(k) := p], Rekeyed(kt, d[k := p]);
    assert d[k := p].Keys == d.Keys + {k} && KeysToPy(d.Keys + {k}) == KeysToPy(d.Keys) + {KeyToPy(k)};
    KeyRoundTrip(kt, k);
    PyKeysOf(kt, d.Keys + {k});
    SameMap(r', r);
  }

  lemma RekeyedFits(kt: KeyTy, val: Ty, d: map<Key, Py>)
    requires forall k :: k in d ==> KeyDecodable(kt, k) && PyFits(val, d[k])
    ensures PyFits(TMap(kt, val), PDict(Rekeyed(kt, d)))
  {
    PyKeysOf(kt, d.Keys);
  }

  lemma RekeyedIsToPy(kt: KeyTy, val: Ty, m: map<Key, Cpp>, d: map<Key, Py>)
    requires Decodable(TMap(kt, val), CMap(m)) && d.Keys == m.Keys && forall k :: k in m ==> d[k] == ToPy(val, m[k])
    ensures Rekeyed(kt, d) == ToPy(TMap(kt, val), CMap(m)).m
  {
    PyKeysOf(kt, m.Keys);
    SameMap(ToPy(TMap(kt, val), CMap(m)).m, Rekeyed(kt, d));
  }

  function Total(bags: seq<multiset<Res>>): multiset<Res>
  {
    if bags == [] then multiset{} else Total(bags[..|bags| - 1]) + bags[|bags| - 1]
  }

  lemma NothingInSum(a: multiset<Res>, b: multiset<Res>)
    ensures a + b == multiset{} <==> a == multiset{} && b == multiset{}
  {
    if a + b == multiset{} {
      assert forall r :: (a + b)[r] == a[r] + b[r];
    }
  }

  lemma {:induction false} TotalNothingIff(bags: seq<multiset<Res>>)
    ensures Total(bags) == multiset{} <==> forall i :: 0 <= i < |bags| ==> bags[i] == multiset{}
  {
    if bags != [] {
      TotalNothingIff(bags[..|bags| - 1]);
      NothingInSum(Total(bags[..|bags| - 1]), bags[|bags| - 1]);
    }
  }

  ghost function Any(ks: set<Key>): Key
    requires ks != {}
  {
    var k :| k in ks; k
  }

  ghost function TotalOf(bags: map<Key, multiset<Res>>): multiset<Res>
    decreases |bags|
  {
    if bags == map[] then multiset{} else
    var k := Any(bags.Keys);
    TotalOf(bags - {k}) + bags[k]
  }

  /** The order of summation makes no difference. */
  lemma {:induction false} TotalWithout(bags: map<Key, multiset<Res>>, k: Key)
    requires k in bags
    ensures TotalOf(bags) == TotalOf(bags - {k}) + bags[k]
    decreases |bags|
  {
    var first := Any(bags.Keys);
    if first != k {
      var rest := bags - {first} - {k};
      TotalWithout(bags - {first}, k);
      TotalWithout(bags - {k}, first);
      assert bags - {k} - {first} == rest;
      Swap(TotalOf(rest), bags[k], bags[first]);
    }
  }

  lemma Swap(a: multiset<Res>, b: multiset<Res>, c: multiset<Res>)
    ensures a + b + c == a + c + b
  {
  }

  lemma {:induction false} TotalOfNothingIff(bags: map<Key, multiset<Res>>)
    ensures TotalOf(bags) == multiset{} <==> forall k :: k in bags ==> bags[k] == multiset{}
    decreases |bags|
  {
    if bags != map[] {
      var k := Any(bags.Keys);
      TotalOfNothingIff(bags - {k});
      assert forall k' :: k' in bags && k' != k ==> k' in bags - {k} && (bags - {k})[k'] == bags[k'];
      NothingInSum(TotalOf(bags - {k}), bags[k]);
    }
  }

  // ---------------------------------------------------------------------------------------------
  // What Python gets
  // ---------------------------------------------------------------------------------------------

  function Decoding(ks: set<Key>): set<Key> { set k | k in ks && KeyDecodes(k) }

  /** The Python value made of a C++ value, unless the conversion raises. A null handle raises where a record is
      expected and is None where it is optional. */
  function Arrives(ty: Ty, v: Cpp): Option<Py>
    requires Fits(ty, v)
    decreases ty, 1
  {
    match ty
    case TInt(_, _) => Some(PInt(v.n))
    case TStr => if Utf8.WellFormed(v.s) then Some(PStr(Utf8.Decode(v.s))) else None
    case TBin => Some(PBin(v.b))
    case TOpt(base) =>
      if v.CNone? then Some(PNone) else
      var p := Arrives(base, v.v);
      if p.None? && base.TRec? then Some(PNone) else p
    case TList(elem) => Some(PList(Present(Elements(elem, v.es))))
    case TSet(_) => Some(PSet(KeysToPy(Decoding(v.ks))))
    case TMap(kt, val) => Some(PDict(Rekeyed(kt, PresentIn(Entries(kt, val, v.m)))))
    case TRec(_, _) =>
      var fs := Fields(ty, v);
      if forall i :: 0 <= i < |fs| ==> fs[i].Some? then Some(PRec(Present(fs))) else None
  }

  function Elements(elem: Ty, es: seq<Cpp>): (os: seq<Option<Py>>)
    requires forall i :: 0 <= i < |es| ==> Fits(elem, es[i])
    ensures |os| == |es| && forall i :: 0 <= i < |es| ==> os[i] == Arrives(elem, es[i])
    decreases elem, 2
  {
    seq(|es|, i requires 0 <= i < |es| => Arrives(elem, es[i]))
  }

  /** Both the key and the value have to arrive. */
  function Entry(val: Ty, k: Key, v: Cpp): Option<Py>
    requires Fits(val, v)
    decreases val, 2
  {
    if KeyDecodes(k) then Arrives(val, v) else None
  }

  function Entries(kt: KeyTy, val: Ty, m: map<Key, Cpp>): (os: map<Key, Option<Py>>)
    requires forall k :: k in m ==> KeyFits(kt, k) && Fits(val, m[k])
    ensures os.Keys == m.Keys && forall k :: k in m ==> os[k] == Entry(val, k, m[k])
    ensures forall k :: k in PresentIn(os) ==> KeyDecodable(kt, k)
    decreases val, 3
  {
    map k | k in m :: Entry(val, k, m[k])
  }

  function Fields(ty: Ty, v: Cpp): (os: seq<Option<Py>>)
    requires ty.TRec? && Fits(ty, v)
    ensures |os| == |ty.fields| && forall i :: 0 <= i < |os| ==> os[i] == Arrives(ty.fields[i], v.fs[i])
    decreases ty, 0
  {
    seq(|ty.fields|, i requires 0 <= i < |ty.fields| => Arrives(ty.fields[i], v.fs[i]))
  }

  /** Whatever arrives is a value of the type. */
  lemma {:induction false} ArrivesFits(ty: Ty, v: Cpp)
    requires Fits(ty, v)
    ensures Arrives(ty, v).Some? ==> PyFits(ty, Arrives(ty, v).value)
    decreases ty
  {
    match ty
    case TInt(_, _) =>
    case TStr => if Utf8.WellFormed(v.s) { Utf8.DecodeWellFormed(v.s); }
    case TBin =>
    case TOpt(base) => if v.CSome? { ArrivesFits(base, v.v); }
    case TList(elem) =>
      forall p | p in Present(Elements(elem, v.es)) ensures PyFits(elem, p) {
        PresentFrom(Elements(elem, v.es), p);
        var i :| 0 <= i < |v.es| && Elements(elem, v.es)[i] == Some(p);
        ArrivesFits(elem, v.es[i]);
      }
    case TSet(kt) => PyKeysOf(kt, Decoding(v.ks));
    case TMap(kt, val) =>
      var d := PresentIn(Entries(kt, val, v.m));
      forall k | k in d ensures PyFits(val, d[k]) { ArrivesFits(val, v.m[k]); }
      RekeyedFits(kt, val, d);
    case TRec(_, fields) =>
      if Arrives(ty, v).Some? {
        PresentAll(Fields(ty, v));
        forall i | 0 <= i < |fields| ensures PyFits(fields[i], Present(Fields(ty, v))[i]) {
          ArrivesFits(fields[i], v.fs[i]);
        }
      }
  }

  lemma {:induction false} DecodableArrives(ty: Ty, v: Cpp)
    requires Fits(ty, v) && Decodable(ty, v)
    ensures Arrives(ty, v) == Some(ToPy(ty, v))
    decreases ty
  {
    match ty
    case TInt(_, _) =>
    case TStr =>
    case TBin =>
    case TOpt(base) => if v.CSome? { DecodableArrives(base, v.v); }
    case TList(elem) =>
      forall i | 0 <= i < |v.es| ensures Elements(elem, v.es)[i] == Some(ToPy(elem, v.es[i])) {
        DecodableArrives(elem, v.es[i]);
      }
      PresentAll(Elements(elem, v.es));
      assert Present(Elements(elem, v.es)) == ToPy(ty, v).es;
    case TSet(kt) => assert Decoding(v.ks) == v.ks;
    case TMap(kt, val) =>
      var d := PresentIn(Entries(kt, val, v.m));
      forall k | k in v.m ensures Entries(kt, val, v.m)[k] == Some(ToPy(val, v.m[k])) {
        DecodableArrives(val, v.m[k]);
      }
      assert d.Keys == v.m.Keys;
      RekeyedIsToPy(kt, val, v.m, d);
    case TRec(_, fields) =>
      forall i | 0 <= i < |fields| ensures Fields(ty, v)[i] == Some(ToPy(fields[i], v.fs[i])) {
        DecodableArrives(fields[i], v.fs[i]);
      }
      PresentAll(Fields(ty, v));
      assert Present(Fields(ty, v)) == ToPy(ty, v).fs;
  }

  /** Python gets the value itself exactly when all strings in it are well-formed UTF-8. */
  lemma IntactIff(ty: Ty, v: Cpp)
    requires Fits(ty, v)
    ensures Decodable(ty, v) ==> Arrives(ty, v) == Some(ToPy(ty, v))
    ensures Arrives(ty, v).Some? ==> PyFits(ty, Arrives(ty, v).value)
    ensures (Arrives(ty, v).Some? && ToCpp(ty, Arrives(ty, v).value) == v) <==> Decodable(ty, v)
  {
    ArrivesFits(ty, v);
    if Decodable(ty, v) {
      DecodableArrives(ty, v);
      CppRoundTrip(ty, v);
    }
    if Arrives(ty, v).Some? {
      PyRoundTrip(ty, Arrives(ty, v).value);
    }
  }

  /** In terms of the strings: when the conversion raises. */
  predicate Raises(ty: Ty, v: Cpp)
    requires Fits(ty, v)
    decreases ty
  {
    match ty
    case TStr => !Utf8.WellFormed(v.s)
    case TOpt(base) => v.CSome? && !base.TRec? && Raises(base, v.v)
    case TRec(_, fields) => exists i :: 0 <= i < |fields| && Raises(fields[i], v.fs[i])
    case _ => false
  }

  lemma {:induction false} RaisesIff(ty: Ty, v: Cpp)
    requires Fits(ty, v)
    ensures Raises(ty, v) <==> Arrives(ty, v).None?
    decreases ty
  {
    match ty
    case TOpt(base) => if v.CSome? { RaisesIff(base, v.v); }
    case TRec(_, fields) =>
      forall i | 0 <= i < |fields| ensures Raises(fields[i], v.fs[i]) <==> Fields(ty, v)[i].None? {
        RaisesIff(fields[i], v.fs[i]);
      }
    case _ =>
  }

  // ---------------------------------------------------------------------------------------------
  // What stays behind
  // ---------------------------------------------------------------------------------------------

  /** What C++ sends. The handle to a container has an iterator over nothing, since that is what the container had in
      it when the handle was made. A record that did not come about is a null handle. */
  function Send(ty: Ty, v: Cpp): Parcel
    requires Fits(ty, v)
    decreases ty
  {
    match ty
    case TInt(_, _) => Value(v.n)
    case TStr => Owned(String(v.s))
    case TBin => Owned(Binary(v.b))
    case TOpt(base) =>
      if v.CNone? then Empty
      else if base.TInt? then assert Fits(base, v.v); Owned(Boxed(v.v.n))
      else Send(base, v.v)
    case _ =>
      var p := Arrives(ty, v);
      if p.Some? then Owned(Handle(ty, p.value, NO_ITER)) else Empty
  }

  lemma EmptyIff(ty: Ty, v: Cpp)
    requires Fits(ty, v) && !ty.TOpt?
    ensures Send(ty, v).Empty? <==> ty.TRec? && Arrives(ty, v).None?
  {
  }

  function Sends(ty: Ty, v: Cpp): (parcels: seq<Parcel>)
    requires ty.TRec? && Fits(ty, v)
    ensures |parcels| == |ty.fields| && forall i :: 0 <= i < |parcels| ==> parcels[i] == Send(ty.fields[i], v.fs[i])
  {
    seq(|ty.fields|, i requires 0 <= i < |ty.fields| => Send(ty.fields[i], v.fs[i]))
  }

  /** The parcels from `i` on, none of which is taken over any more. */
  function Dropped(parcels: seq<Parcel>, i: nat): multiset<Res>
    requires i <= |parcels|
    decreases |parcels| - i
  {
    if i == |parcels| then multiset{} else ResOf(parcels[i]) + Dropped(parcels, i + 1)
  }

  /** The record's constructor takes its arguments over in order; after the first that raises, it takes no more. */
  function Unread(os: seq<Option<Py>>, parcels: seq<Parcel>, i: nat): multiset<Res>
    requires i <= |os| == |parcels|
    decreases |parcels| - i
  {
    if i == |os| then multiset{}
    else if os[i].None? then Dropped(parcels, i + 1)
    else Unread(os, parcels, i + 1)
  }

  /** What nobody takes over when the value is sent and received. */
  ghost function Left(ty: Ty, v: Cpp): multiset<Res>
    requires Fits(ty, v)
    decreases ty, 1
  {
    match ty
    case TOpt(base) => if v.CSome? then Left(base, v.v) else multiset{}
    case TList(elem) => Total(ElementsLeft(elem, v.es))
    case TMap(kt, val) => TotalOf(EntriesLeft(kt, val, v.m))
    case TRec(_, _) => Total(FieldsLeft(ty, v)) + Unread(Fields(ty, v), Sends(ty, v), 0)
    case _ => multiset{}
  }

  ghost function ElementsLeft(elem: Ty, es: seq<Cpp>): (bags: seq<multiset<Res>>)
    requires forall i :: 0 <= i < |es| ==> Fits(elem, es[i])
    ensures |bags| == |es| && forall i :: 0 <= i < |es| ==> bags[i] == Left(elem, es[i])
    decreases elem, 2
  {
    seq(|es|, i requires 0 <= i < |es| => Left(elem, es[i]))
  }

  /** An assignment to a dict entry evaluates the value first: if that raises, nobody takes the key over. */
  function KeyLeft(val: Ty, k: Key, v: Cpp): multiset<Res>
    requires Fits(val, v)
  {
    if Arrives(val, v).None? && k.KStr? then multiset{String(k.s)} else multiset{}
  }

  ghost function EntryLeft(val: Ty, k: Key, v: Cpp): multiset<Res>
    requires Fits(val, v)
    decreases val, 2
  {
    Left(val, v) + KeyLeft(val, k, v)
  }

  ghost function EntriesLeft(kt: KeyTy, val: Ty, m: map<Key, Cpp>): (bags: map<Key, multiset<Res>>)
    requires forall k :: k in m ==> KeyFits(kt, k) && Fits(val, m[k])
    ensures bags.Keys == m.Keys && forall k :: k in m ==> bags[k] == EntryLeft(val, k, m[k])
    decreases val, 3
  {
    map k | k in m :: EntryLeft(val, k, m[k])
  }

  ghost function FieldsLeft(ty: Ty, v: Cpp): (bags: seq<multiset<Res>>)
    requires ty.TRec? && Fits(ty, v)
    ensures |bags| == |ty.fields| && forall i :: 0 <= i < |bags| ==> bags[i] == Left(ty.fields[i], v.fs[i])
    decreases ty, 0
  {
    seq(|ty.fields|, i requires 0 <= i < |ty.fields| => Left(ty.fields[i], v.fs[i]))
  }

  /** In terms of the strings: when the value takes a pointer that owns something. */
  predicate Owning(ty: Ty, v: Cpp)
    requires Fits(ty, v)
    decreases ty
  {
    match ty
    case TInt(_, _) => false
    case TOpt(base) => v.CSome? && (base.TInt? || Owning(base, v.v))
    case TRec(_, _) => !Raises(ty, v)
    case _ => true
  }

  /** In terms of the strings: no map with string keys has a value that raises, and in no record does a field that
      raises come before one that owns something. */
  predicate Kept(ty: Ty, v: Cpp)
    requires Fits(ty, v)
    decreases ty, 0
  {
    match ty
    case TOpt(base) => v.CSome? ==> Kept(base, v.v)
    case TList(elem) => forall i :: 0 <= i < |v.es| ==> Kept(elem, v.es[i])
    case TMap(_, val) => forall k :: k in v.m ==> EntryKept(val, k, v.m[k])
    case TRec(_, fields) =>
      && (forall i :: 0 <= i < |fields| ==> Kept(fields[i], v.fs[i]))
      && forall i, j :: 0 <= i < j < |fields| && Raises(fields[i], v.fs[i]) ==> !Owning(fields[j], v.fs[j])
    case _ => true
  }

  predicate EntryKept(val: Ty, k: Key, v: Cpp)
    requires Fits(val, v)
    decreases val, 1
  {
    Kept(val, v) && (k.KStr? ==> !Raises(val, v))
  }

  lemma {:induction false} OwningIff(ty: Ty, v: Cpp)
    requires Fits(ty, v)
    ensures Owning(ty, v) <==> Send(ty, v).Owned?
    decreases ty
  {
    match ty
    case TOpt(base) => if v.CSome? { OwningIff(base, v.v); }
    case _ => RaisesIff(ty, v);
  }

  lemma {:induction false} NoneDroppedIff(parcels: seq<Parcel>, i: nat)
    requires i <= |parcels|
    ensures Dropped(parcels, i) == multiset{} <==> forall j :: i <= j < |parcels| ==> !parcels[j].Owned?
    decreases |parcels| - i
  {
    if i < |parcels| {
      NoneDroppedIff(parcels, i + 1);
      NothingInSum(ResOf(parcels[i]), Dropped(parcels, i + 1));
    }
  }

  lemma {:induction false} NoneUnreadIff(os: seq<Option<Py>>, parcels: seq<Parcel>, i: nat)
    requires i <= |os| == |parcels|
    ensures Unread(os, parcels, i) == multiset{}
       <==> forall k, j :: i <= k < j < |os| && os[k].None? ==> !parcels[j].Owned?
    decreases |parcels| - i
  {
    if i < |os| {
      if os[i].None? {
        NoneDroppedIff(parcels, i + 1);
      } else {
        NoneUnreadIff(os, parcels, i + 1);
      }
    }
  }

  lemma {:induction false} EntryLeftIff(val: Ty, k: Key, v: Cpp)
    requires Fits(val, v)
    ensures EntryLeft(val, k, v) == multiset{} <==> EntryKept(val, k, v)
    decreases val, 2
  {
    NothingLeftIff(val, v);
    RaisesIff(val, v);
    NothingInSum(Left(val, v), KeyLeft(val, k, v));
  }

  lemma NoneUnreadOfRecordIff(ty: Ty, v: Cpp)
    requires ty.TRec? && Fits(ty, v)
    ensures Unread(Fields(ty, v), Sends(ty, v), 0) == multiset{}
       <==> forall i, j :: 0 <= i < j < |ty.fields| && Raises(ty.fields[i], v.fs[i]) ==> !Owning(ty.fields[j], v.fs[j])
  {
    forall i | 0 <= i < |ty.fields|
      ensures Fields(ty, v)[i].None? <==> Raises(ty.fields[i], v.fs[i])
      ensures Sends(ty, v)[i].Owned? <==> Owning(ty.fields[i], v.fs[i])
    {
      RaisesIff(ty.fields[i], v.fs[i]);
      OwningIff(ty.fields[i], v.fs[i]);
    }
    NoneUnreadIff(Fields(ty, v), Sends(ty, v), 0);
  }

  lemma {:induction false} NothingLeftOfRecordIff(ty: Ty, v: Cpp)
    requires ty.TRec? && Fits(ty, v)
    ensures Left(ty, v) == multiset{} <==> Kept(ty, v)
    decreases ty, 0
  {
    forall i | 0 <= i < |ty.fields|
      ensures FieldsLeft(ty, v)[i] == multiset{} <==> Kept(ty.fields[i], v.fs[i])
    {
      NothingLeftIff(ty.fields[i], v.fs[i]);
    }
    TotalNothingIff(FieldsLeft(ty, v));
    NoneUnreadOfRecordIff(ty, v);
    NothingInSum(Total(FieldsLeft(ty, v)), Unread(Fields(ty, v), Sends(ty, v), 0));
  }

  /** Exactly when nothing stays behind. */
  lemma {:induction false} NothingLeftIff(ty: Ty, v: Cpp)
    requires Fits(ty, v)
    ensures Left(ty, v) == multiset{} <==> Kept(ty, v)
    decreases ty, 1
  {
    match ty
    case TOpt(base) => if v.CSome? { NothingLeftIff(base, v.v); }
    case TList(elem) =>
      forall i | 0 <= i < |v.es| ensures ElementsLeft(elem, v.es)[i] == multiset{} <==> Kept(elem, v.es[i]) {
        NothingLeftIff(elem, v.es[i]);
      }
      TotalNothingIff(ElementsLeft(elem, v.es));
    case TMap(kt, val) =>
      forall k | k in v.m ensures EntriesLeft(kt, val, v.m)[k] == multiset{} <==> EntryKept(val, k, v.m[k]) {
        EntryLeftIff(val, k, v.m[k]);
      }
      TotalOfNothingIff(EntriesLeft(kt, val, v.m));
    case TRec(_, _) => NothingLeftOfRecordIff(ty, v);
    case _ =>
  }

  /** With well-formed strings nothing stays behind. */
  lemma {:induction false} DecodableKept(ty: Ty, v: Cpp)
    requires Fits(ty, v) && Decodable(ty, v)
    ensures !Raises(ty, v) && Kept(ty, v)
    decreases ty
  {
    match ty
    case TOpt(base) => if v.CSome? { DecodableKept(base, v.v); }
    case TList(elem) => forall i | 0 <= i < |v.es| ensures Kept(elem, v.es[i]) { DecodableKept(elem, v.es[i]); }
    case TMap(_, val) => forall k | k in v.m ensures EntryKept(val, k, v.m[k]) { DecodableKept(val, v.m[k]); }
    case TRec(_, fields) =>
      forall i | 0 <= i < |fields| ensures Kept(fields[i], v.fs[i]) && !Raises(fields[i], v.fs[i]) {
        DecodableKept(fields[i], v.fs[i]);
      }
    case _ =>
  }

  // ---------------------------------------------------------------------------------------------
  // Inputs for which it goes wrong
  // ---------------------------------------------------------------------------------------------

  lemma LoneByteIsIllFormed()
    ensures !Utf8.WellFormed([0xFF])
  {
  }

  /** A list loses its ill-formed string. */
  lemma ElementIsLost()
    ensures var ty, v := TList(TStr), CList([CStr([0xFF])]);
            Fits(ty, v) && Arrives(ty, v) == Some(PList([])) && Left(ty, v) == multiset{}
  {
    LoneByteIsIllFormed();
    var es := [CStr([0xFF])];
    var os := Elements(TStr, es);
    assert os[0] == None && os[..0] == [] && Present(os) == Present(os[..0]) + [];
    TotalNothingIff(ElementsLeft(TStr, es));
  }

  /** A map loses the entry with an ill-formed value, and its key stays behind. */
  lemma KeyStaysBehind()
    ensures var ty, v := TMap(StrKey, TStr), CMap(map[KStr([0x61]) := CStr([0xFF])]);
            Fits(ty, v) && Arrives(ty, v) == Some(PDict(map[])) && Left(ty, v) == multiset{String([0x61])}
  {
    LoneByteIsIllFormed();
    var k := KStr([0x61]);
    var m := map[k := CStr([0xFF])];
    assert PresentIn(Entries(StrKey, TStr, m)) == map[];
    TotalWithout(EntriesLeft(StrKey, TStr, m), k);
    assert EntriesLeft(StrKey, TStr, m) - {k} == map[];
  }

  /** A record whose first field is ill formed does not come about, and its second field stays behind. */
  lemma FieldStaysBehind()
    ensures var ty, v := TRec(0, [TStr, TOpt(TStr)]), CRec([CStr([0xFF]), CSome(CStr([0x61]))]);
            Fits(ty, v) && Arrives(ty, v) == None && Send(ty, v) == Empty && Left(ty, v) == multiset{String([0x61])}
  {
    LoneByteIsIllFormed();
    var ty, v := TRec(0, [TStr, TOpt(TStr)]), CRec([CStr([0xFF]), CSome(CStr([0x61]))]);
    var os, parcels := Fields(ty, v), Sends(ty, v);
    assert os[0] == None && parcels[1] == Owned(String([0x61]));
    assert Unread(os, parcels, 0) == Dropped(parcels, 1) == ResOf(parcels[1]) + Dropped(parcels, 2);
    assert Dropped(parcels, 2) == multiset{};
    TotalNothingIff(FieldsLeft(ty, v));
  }
}

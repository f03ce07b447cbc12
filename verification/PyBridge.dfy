/**
  Values crossing between C++ and Python. What crosses the C boundary is a number, a null pointer, or a pointer
  that owns something: a native string, binary or boxed number, or a handle to a Python object, registered in
  the data set of its type. Each pointer is owned by one thread, which gives it up once, or has been left behind.
  Other threads do the same beside us, at every moment.
 */
module PyBridge {
  import opened Options
  import opened PyValues
  import opened PyArrival
  import Utf8

  type Ptr = nat
  type Tid = nat

  datatype Wire = Null | Number(n: int) | At(ptr: Ptr)

  /** A thread has a pointer, or has left it behind. */
  datatype Owner = Thread(t: Tid) | Lost(t: Tid)

  // ---------------------------------------------------------------------------------------------
  // Accounts of what is owned
  // ---------------------------------------------------------------------------------------------

  /** `mine` is `before` and what the parcel owns, through `w`. */
  ghost predicate Carries(before: map<Ptr, Res>, mine: map<Ptr, Res>, parcel: Parcel, w: Wire)
  {
    match parcel
    case Empty => mine == before && w == Null
    case Value(n) => mine == before && w == Number(n)
    case Owned(r) => w.At? && w.ptr !in before && mine == before[w.ptr := r]
  }

  function Drop(mine: map<Ptr, Res>, w: Wire): map<Ptr, Res> { if w.At? then mine - {w.ptr} else mine }

  /** `mine` is `before` and what the parcels own, through the wires. */
  ghost predicate CarriesAll(before: map<Ptr, Res>, mine: map<Ptr, Res>, parcels: seq<Parcel>, ws: seq<Wire>)
    requires |parcels| == |ws|
  {
    if ws == [] then mine == before else
      && Carries(Drop(mine, ws[0]), mine, parcels[0], ws[0])
      && CarriesAll(before, Drop(mine, ws[0]), parcels[1..], ws[1..])
  }

  lemma MapsSwap(before: map<Ptr, Res>, h: Ptr, r: Res, h': Ptr, r': Res)
    requires h !in before && h' !in before && h != h'
    ensures before[h := r][h' := r'] - {h} == before[h' := r']
    ensures before[h' := r'][h := r] == before[h := r][h' := r']
  {
  }

  /** Two parcels one after the other can be taken over in either order. */
  lemma CarriesSwap(before: map<Ptr, Res>, mine: map<Ptr, Res>, a: Parcel, w: Wire, mine': map<Ptr, Res>, b: Parcel,
                    w': Wire)
    requires Carries(before, mine, a, w) && Carries(mine, mine', b, w') && before == Drop(mine, w)
    ensures Carries(Drop(mine', w), mine', a, w) && Carries(before, Drop(mine', w), b, w')
  {
    if a.Owned? && b.Owned? {
      MapsSwap(before, w.ptr, a.res, w'.ptr, b.res);
    } else if a.Owned? {
      assert mine' == mine;
    }
  }

  lemma {:induction false} CarriesOneMore(before: map<Ptr, Res>, mine: map<Ptr, Res>, parcels: seq<Parcel>,
                                          ws: seq<Wire>,
                                          mine': map<Ptr, Res>, parcel: Parcel, w: Wire)
    requires |parcels| == |ws| && CarriesAll(before, mine, parcels, ws) && Carries(mine, mine', parcel, w)
    ensures CarriesAll(before, mine', parcels + [parcel], ws + [w])
    decreases |ws|
  {
    if ws == [] {
      assert Drop(mine', w) == mine;
    } else {
      CarriesSwap(Drop(mine, ws[0]), mine, parcels[0], ws[0], mine', parcel, w);
      CarriesOneMore(before, Drop(mine, ws[0]), parcels[1..], ws[1..], Drop(mine', ws[0]), parcel, w);
      assert (parcels + [parcel])[1..] == parcels[1..] + [parcel] && (ws + [w])[1..] == ws[1..] + [w];
    }
  }

  lemma CarriesNext(before: map<Ptr, Res>, mine: map<Ptr, Res>, parcels: seq<Parcel>, ws: seq<Wire>,
                    mine': map<Ptr, Res>, w: Wire)
    requires |ws| < |parcels| && CarriesAll(before, mine, parcels[..|ws|], ws)
    requires Carries(mine, mine', parcels[|ws|], w)
    ensures CarriesAll(before, mine', parcels[..|ws| + 1], ws + [w])
  {
    CarriesOneMore(before, mine, parcels[..|ws|], ws, mine', parcels[|ws|], w);
    assert parcels[..|ws| + 1] == parcels[..|ws|] + [parcels[|ws|]];
  }

  lemma CarriesFirst(before: map<Ptr, Res>, mine: map<Ptr, Res>, parcels: seq<Parcel>, ws: seq<Wire>, i: nat)
    requires i < |parcels| == |ws| && CarriesAll(before, mine, parcels[i..], ws[i..])
    ensures Carries(Drop(mine, ws[i]), mine, parcels[i], ws[i])
    ensures CarriesAll(before, Drop(mine, ws[i]), parcels[i + 1..], ws[i + 1..])
  {
    assert parcels[i..][1..] == parcels[i + 1..] && ws[i..][1..] == ws[i + 1..];
  }

  /** What we had before we still have. */
  lemma {:induction false} KeptWhileCarrying(before: map<Ptr, Res>, mine: map<Ptr, Res>, parcels: seq<Parcel>,
                                             ws: seq<Wire>,
                                             h: Ptr)
    requires |parcels| == |ws| && CarriesAll(before, mine, parcels, ws) && h in before
    ensures h in mine && mine[h] == before[h]
    decreases |ws|
  {
    if ws != [] {
      KeptWhileCarrying(before, Drop(mine, ws[0]), parcels[1..], ws[1..], h);
    }
  }

  /** `b` is `a` and further pointers that own exactly `bag`. */
  ghost predicate Grown(a: map<Ptr, Res>, b: map<Ptr, Res>, bag: multiset<Res>)
    decreases |bag|, 1
  {
    if bag == multiset{} then b == a else exists p :: GrownLast(a, b, bag, p)
  }

  /** `p` is one of them. */
  ghost predicate GrownLast(a: map<Ptr, Res>, b: map<Ptr, Res>, bag: multiset<Res>, p: Ptr)
    decreases |bag|, 0
  {
    p in b && p !in a && b[p] in bag && Grown(a, b - {p}, bag - multiset{b[p]})
  }

  lemma GrownByOne(a: map<Ptr, Res>, p: Ptr, r: Res)
    requires p !in a
    ensures Grown(a, a[p := r], multiset{r})
  {
    assert a[p := r] - {p} == a && multiset{r} - multiset{r} == multiset{};
    assert GrownLast(a, a[p := r], multiset{r}, p);
  }

  lemma {:induction false} GrownKeeps(a: map<Ptr, Res>, b: map<Ptr, Res>, bag: multiset<Res>, p: Ptr)
    requires Grown(a, b, bag) && p in a
    ensures p in b && b[p] == a[p]
    decreases |bag|
  {
    if bag != multiset{} {
      var q :| GrownLast(a, b, bag, q);
      GrownKeeps(a, b - {q}, bag - multiset{b[q]}, p);
    }
  }

  lemma {:induction false} GrownTwice(a: map<Ptr, Res>, b: map<Ptr, Res>, x: multiset<Res>, c: map<Ptr, Res>,
                                      y: multiset<Res>)
    requires Grown(a, b, x) && Grown(b, c, y)
    ensures Grown(a, c, x + y)
    decreases |y|
  {
    if y == multiset{} {
      assert x + y == x;
    } else {
      var p :| GrownLast(b, c, y, p);
      if p in a { GrownKeeps(a, b, x, p); }
      GrownTwice(a, b, x, c - {p}, y - multiset{c[p]});
      assert x + (y - multiset{c[p]}) == x + y - multiset{c[p]};
      assert GrownLast(a, c, x + y, p);
    }
  }

  /** How often the data set of `ty` contains the pointer. */
  function Count(sets: map<Ty, multiset<Ptr>>, ty: Ty, ptr: Ptr): nat { if ty in sets then sets[ty][ptr] else 0 }

  function AddTo(sets: map<Ty, multiset<Ptr>>, ty: Ty, ptr: Ptr): (sets': map<Ty, multiset<Ptr>>)
    ensures forall ty', p :: Count(sets', ty', p) == Count(sets, ty', p) + if ty' == ty && p == ptr then 1 else 0
  {
    sets[ty := (if ty in sets then sets[ty] else multiset{}) + multiset{ptr}]
  }

  function RemoveFrom(sets: map<Ty, multiset<Ptr>>, ty: Ty, ptr: Ptr): (sets': map<Ty, multiset<Ptr>>)
    requires Count(sets, ty, ptr) > 0
    ensures forall ty', p :: Count(sets', ty', p) == Count(sets, ty', p) - if ty' == ty && p == ptr then 1 else 0
  {
    sets[ty := sets[ty] - multiset{ptr}]
  }

  ghost function OwnedBy(live: map<Ptr, Res>, owner: map<Ptr, Owner>, o: Owner): map<Ptr, Res>
    requires owner.Keys == live.Keys
  {
    map p | p in live && owner[p] == o :: live[p]
  }

  lemma OwnedAfterWrite(live: map<Ptr, Res>, owner: map<Ptr, Owner>, ptr: Ptr, r: Res, t: Tid, o: Owner)
    requires owner.Keys == live.Keys && (ptr in live ==> owner[ptr] == Thread(t))
    ensures OwnedBy(live[ptr := r], owner[ptr := Thread(t)], o)
         == if o == Thread(t) then OwnedBy(live, owner, o)[ptr := r] else OwnedBy(live, owner, o)
  {
  }

  lemma OwnedAfterForgetting(live: map<Ptr, Res>, owner: map<Ptr, Owner>, ptr: Ptr, t: Tid, o: Owner)
    requires owner.Keys == live.Keys && ptr in live && owner[ptr] == Thread(t)
    ensures OwnedBy(live, owner[ptr := Lost(t)], o)
         == if o == Thread(t) then OwnedBy(live, owner, o) - {ptr}
            else if o == Lost(t) then OwnedBy(live, owner, o)[ptr := live[ptr]]
            else OwnedBy(live, owner, o)
  {
  }

  lemma OwnedAfterErase(live: map<Ptr, Res>, owner: map<Ptr, Owner>, ptr: Ptr, o: Owner)
    requires owner.Keys == live.Keys && ptr in live
    ensures OwnedBy(live - {ptr}, owner - {ptr}, o)
         == if o == owner[ptr] then OwnedBy(live, owner, o) - {ptr} else OwnedBy(live, owner, o)
  {
  }

  // ---------------------------------------------------------------------------------------------
  // Keys and containers, one key at a time
  // ---------------------------------------------------------------------------------------------

  function KeyType(kt: KeyTy): Ty { if kt.IntKey? then TInt(kt.lo, kt.hi) else TStr }

  function CppKey(k: Key): Cpp { if k.KInt? then CInt(k.n) else CStr(k.s) }

  function PythonKey(k: PyKey): Py { if k.PKInt? then PInt(k.n) else PStr(k.t) }

  function AsPyKey(p: Py): PyKey
    requires p.PInt? || p.PStr?
  {
    if p.PInt? then PKInt(p.n) else PKStr(p.t)
  }

  lemma KeyArrives(kt: KeyTy, k: Key)
    requires KeyFits(kt, k)
    ensures Fits(KeyType(kt), CppKey(k))
    ensures Arrives(KeyType(kt), CppKey(k)) == if KeyDecodes(k) then Some(PythonKey(KeyToPy(k))) else None
  {
  }

  function WithKey(ks: set<PyKey>, k: Key): set<PyKey> { if KeyDecodes(k) then ks + {KeyToPy(k)} else ks }

  lemma KeysOneMore(ks: set<Key>, k: Key)
    ensures KeysToPy(Decoding(ks + {k})) == WithKey(KeysToPy(Decoding(ks)), k)
  {
    assert Decoding(ks + {k}) == if KeyDecodes(k) then Decoding(ks) + {k} else Decoding(ks);
  }

  lemma PyKeysOneMore(ks: set<PyKey>, k: PyKey)
    ensures KeysToCpp(ks + {k}) == KeysToCpp(ks) + {KeyToCpp(k)}
  {
  }

  function WithEntry(d: map<PyKey, Py>, k: Key, p: Option<Py>): map<PyKey, Py>
  {
    if p.Some? then d[KeyToPy(k) := p.value] else d
  }

  /** The part of a map whose keys are in `ks`. */
  function Part<K, V>(m: map<K, V>, ks: set<K>): map<K, V> { map k | k in m && k in ks :: m[k] }

  lemma PartOneMore<K, V>(m: map<K, V>, ks: set<K>, k: K)
    requires k in m && k !in ks
    ensures Part(m, ks + {k}) == Part(m, ks)[k := m[k]] && Part(m, ks + {k}) - {k} == Part(m, ks)
  {
  }

  ghost predicate AllDecodable<V>(kt: KeyTy, os: map<Key, Option<V>>)
  {
    forall k :: k in PresentIn(os) ==> KeyDecodable(kt, k)
  }

  lemma EntriesOneMore(kt: KeyTy, os: map<Key, Option<Py>>, ks: set<Key>, k: Key)
    requires AllDecodable(kt, os) && k in os && k !in ks
    ensures AllDecodable(kt, Part(os, ks)) && AllDecodable(kt, Part(os, ks + {k}))
    ensures Rekeyed(kt, PresentIn(Part(os, ks + {k}))) == WithEntry(Rekeyed(kt, PresentIn(Part(os, ks))), k, os[k])
  {
    forall k' | k' in PresentIn(Part(os, ks + {k})) ensures KeyDecodable(kt, k') { assert k' in PresentIn(os); }
    forall k' | k' in PresentIn(Part(os, ks)) ensures KeyDecodable(kt, k') { assert k' in PresentIn(os); }
    PartOneMore(os, ks, k);
    if os[k].Some? {
      assert k in PresentIn(os);
      assert PresentIn(Part(os, ks + {k})) == PresentIn(Part(os, ks))[k := os[k].value];
      RekeyedOneMore(kt, PresentIn(Part(os, ks)), k, os[k].value);
    } else {
      assert PresentIn(Part(os, ks + {k})) == PresentIn(Part(os, ks));
    }
  }

  lemma LeftOneMore(bags: map<Key, multiset<Res>>, ks: set<Key>, k: Key)
    requires k in bags && k !in ks
    ensures TotalOf(Part(bags, ks + {k})) == TotalOf(Part(bags, ks)) + bags[k]
  {
    PartOneMore(bags, ks, k);
    TotalWithout(Part(bags, ks + {k}), k);
  }

  lemma WholePart<K, V>(m: map<K, V>)
    ensures Part(m, m.Keys) == m && Part(m, {}) == map[]
  {
  }

  /** The C++ map made of those entries of `d` whose keys are in `ks`. */
  ghost function MapOf(kt: KeyTy, val: Ty, d: map<PyKey, Py>, ks: set<PyKey>): map<Key, Cpp>
    requires PyFits(TMap(kt, val), PDict(d)) && ks <= d.Keys
  {
    CppKeysOf(kt, ks);
    map k | k in KeysToCpp(ks) :: ToCpp(val, d[KeyToPy(k)])
  }

  lemma MapOfNothing(kt: KeyTy, val: Ty, d: map<PyKey, Py>)
    requires PyFits(TMap(kt, val), PDict(d))
    ensures MapOf(kt, val, d, {}) == map[] && d.Keys - d.Keys == {}
  {
  }

  lemma MapOneMore(kt: KeyTy, val: Ty, d: map<PyKey, Py>, ks: set<PyKey>, k: PyKey)
    requires PyFits(TMap(kt, val), PDict(d)) && ks <= d.Keys && k in d && k !in ks
    ensures KeyToCpp(k) !in MapOf(kt, val, d, ks)
    ensures MapOf(kt, val, d, ks + {k}) == MapOf(kt, val, d, ks)[KeyToCpp(k) := ToCpp(val, d[k])]
  {
    PyKeysOneMore(ks, k);
    CppKeysOf(kt, ks);
    PyKeyRoundTrip(kt, k);
  }

  lemma MapOfAll(kt: KeyTy, val: Ty, d: map<PyKey, Py>)
    requires PyFits(TMap(kt, val), PDict(d))
    ensures MapOf(kt, val, d, d.Keys) == ToCpp(TMap(kt, val), PDict(d)).m
  {
  }

  function Offers(tys: seq<Ty>, ps: seq<Py>): seq<Parcel>
    requires |tys| == |ps| && forall i :: 0 <= i < |tys| ==> PyFits(tys[i], ps[i])
  {
    seq(|tys|, i requires 0 <= i < |tys| => Offer(tys[i], ps[i]))
  }

  // ---------------------------------------------------------------------------------------------
  // Iterators
  // ---------------------------------------------------------------------------------------------

  /** `mine` is `before` and the handle to `p`, whose iterator was made over `made` and has `left` to yield. */
  ghost predicate IteratesOver(before: map<Ptr, Res>, mine: map<Ptr, Res>, h: Ptr, ty: Ty, p: Py, it: Iter)
  {
    && it.left <= it.made <= KeysOf(p)
    && mine == before[h := Handle(ty, p, it)]
  }

  class Bridge {
    var live: map<Ptr, Res>
    var sets: map<Ty, multiset<Ptr>>
    var next: Ptr
    var owner: map<Ptr, Owner>

    /** A data set contains exactly the live handles of its type, each once. */
    ghost predicate Valid()
      reads this
    {
      && owner.Keys == live.Keys
      && (forall p :: p in live ==> p < next)
      && (forall ty: Ty, p: Ptr ::
            Count(sets, ty, p) == if p in live && live[p].Handle? && live[p].ty == ty then 1 else 0)
    }

    /** What thread `t` owns. */
    ghost function Mine(t: Tid): map<Ptr, Res>
      requires Valid()
      reads this
    {
      OwnedBy(live, owner, Thread(t))
    }

    /** What thread `t` has left behind. */
    ghost function Stray(t: Tid): map<Ptr, Res>
      requires Valid()
      reads this
    {
      OwnedBy(live, owner, Lost(t))
    }

    constructor ()
      ensures Valid() && forall t: Tid :: Mine(t) == map[] && Stray(t) == map[]
    {
      live, sets, next, owner := map[], map[], 0, map[];
    }

    // ---------------------------------------------------------------------------------------------
    // Single steps. None of them touches what another thread owns or has left behind.
    // ---------------------------------------------------------------------------------------------

    /** Writing to a pointer of ours, or to a new one. */
    method Write(t: Tid, ptr: Ptr, r: Res, newSets: map<Ty, multiset<Ptr>>)
      requires Valid() && (ptr in live ==> ptr in Mine(t)) && ptr < next
      requires forall ty: Ty, p: Ptr :: p != ptr ==> Count(newSets, ty, p) == Count(sets, ty, p)
      requires forall ty: Ty :: Count(newSets, ty, ptr) == if r.Handle? && r.ty == ty then 1 else 0
      modifies this
      ensures Valid() && Mine(t) == old(Mine(t))[ptr := r] && Stray(t) == old(Stray(t))
      ensures forall t': Tid :: t' != t ==> Mine(t') == old(Mine(t')) && Stray(t') == old(Stray(t'))
    {
      forall o {
        OwnedAfterWrite(live, owner, ptr, r, t, o);
      }
      live, owner, sets := live[ptr := r], owner[ptr := Thread(t)], newSets;
    }

    /** A pointer to free memory: it may have been used before. */
    method Fresh() returns (ptr: Ptr)
      requires Valid()
      modifies this
      ensures Valid() && ptr !in live && ptr < next && live == old(live) && sets == old(sets) && owner == old(owner)
      ensures forall ty: Ty :: Count(sets, ty, ptr) == 0
    {
      ptr := *;
      if ptr in live {
        ptr := next;
      }
      next := if ptr < next then next else ptr + 1;
    }

    method Erase(t: Tid, ptr: Ptr, newSets: map<Ty, multiset<Ptr>>)
      requires Valid() && ptr in Mine(t)
      requires forall ty: Ty, p: Ptr :: Count(newSets, ty, p) == if p == ptr then 0 else Count(sets, ty, p)
      modifies this
      ensures Valid() && Mine(t) == old(Mine(t)) - {ptr} && Stray(t) == old(Stray(t))
      ensures forall t': Tid :: t' != t ==> Mine(t') == old(Mine(t')) && Stray(t') == old(Stray(t'))
    {
      forall o {
        OwnedAfterErase(live, owner, ptr, o);
      }
      live, owner, sets := live - {ptr}, owner - {ptr}, newSets;
    }

    /** The code forgets a pointer without giving up what it owns. */
    method Forget(t: Tid, ptr: Ptr)
      requires Valid() && ptr in Mine(t)
      modifies this
      ensures Valid() && Mine(t) == old(Mine(t)) - {ptr}
      ensures ptr !in old(Stray(t)) && Stray(t) == old(Stray(t))[ptr := old(Mine(t))[ptr]]
      ensures forall t': Tid :: t' != t ==> Mine(t') == old(Mine(t')) && Stray(t') == old(Stray(t'))
    {
      forall o {
        OwnedAfterForgetting(live, owner, ptr, t, o);
      }
      owner := owner[ptr := Lost(t)];
    }

    // ---------------------------------------------------------------------------------------------
    // The other threads
    // ---------------------------------------------------------------------------------------------

    /** Some step of some thread other than `t`. */
    method OtherStep(t: Tid)
      requires Valid()
      modifies this
      ensures Valid() && Mine(t) == old(Mine(t)) && Stray(t) == old(Stray(t))
    {
      var t': Tid, ptr: Ptr, r: Res := *, *, *;
      if t' != t {
        if ptr in live && owner[ptr] == Thread(t') {
          var what: nat := *;
          if what == 0 {
            Forget(t', ptr);
          } else if what == 1 && live[ptr].Handle? {
            Erase(t', ptr, RemoveFrom(sets, live[ptr].ty, ptr));
          } else if what == 1 {
            Erase(t', ptr, sets);
          } else if r.Handle? && live[ptr].Handle? && r.ty == live[ptr].ty {
            Write(t', ptr, r, sets);
          }
        } else {
          var p := Fresh();
          Write(t', p, r, if r.Handle? then AddTo(sets, r.ty, p) else sets);
        }
      }
    }

    /** Any number of steps of other threads. */
    method Interfere(t: Tid)
      requires Valid()
      modifies this
      ensures Valid() && Mine(t) == old(Mine(t)) && Stray(t) == old(Stray(t))
    {
      var steps: nat := *;
      while steps > 0
        invariant Valid() && Mine(t) == old(Mine(t)) && Stray(t) == old(Stray(t))
      {
        OtherStep(t);
        steps := steps - 1;
      }
    }

    // ---------------------------------------------------------------------------------------------
    // What happens to one pointer, while other threads run. Each access to a data set holds its lock, so
    // interference comes between.
    // ---------------------------------------------------------------------------------------------

    /** A new native object, or a new handle, which is registered at once. */
    method New(t: Tid, r: Res) returns (ptr: Ptr)
      requires Valid()
      modifies this
      ensures Valid() && ptr !in old(Mine(t)) && Mine(t) == old(Mine(t))[ptr := r] && Stray(t) == old(Stray(t))
    {
      ptr := Fresh();
      Write(t, ptr, r, if r.Handle? then AddTo(sets, r.ty, ptr) else sets);
      Interfere(t);
    }

    /** The resource behind a pointer we own. */
    method Look(t: Tid, ptr: Ptr) returns (r: Res)
      requires Valid() && ptr in Mine(t)
      modifies this
      ensures Valid() && Mine(t) == old(Mine(t)) && Stray(t) == old(Stray(t)) && r == Mine(t)[ptr]
    {
      r := live[ptr];
      Interfere(t);
    }

    /** Changing a Python object, or its iterator, through a handle. */
    method Change(t: Tid, ptr: Ptr, r: Res)
      requires Valid() && ptr in Mine(t) && r.Handle? && Mine(t)[ptr].Handle? && r.ty == Mine(t)[ptr].ty
      modifies this
      ensures Valid() && Mine(t) == old(Mine(t))[ptr := r] && Stray(t) == old(Stray(t))
    {
      Write(t, ptr, r, sets);
      Interfere(t);
    }

    method DeleteNative(t: Tid, ptr: Ptr)
      requires Valid() && ptr in Mine(t) && !Mine(t)[ptr].Handle?
      modifies this
      ensures Valid() && Mine(t) == old(Mine(t)) - {ptr} && Stray(t) == old(Stray(t))
    {
      Erase(t, ptr, sets);
      Interfere(t);
    }

    /** First asserts that the handle is in the data set, then removes it; the lock is free in between. */
    method Unregister(t: Tid, ty: Ty, ptr: Ptr)
      requires Valid() && ptr in Mine(t) && Mine(t)[ptr].Handle? && Mine(t)[ptr].ty == ty
      modifies this
      ensures Valid() && Mine(t) == old(Mine(t)) - {ptr} && Stray(t) == old(Stray(t))
    {
      var contained := Count(sets, ty, ptr) > 0;
      assert contained;
      Interfere(t);
      var removable := Count(sets, ty, ptr) > 0;
      assert removable && ptr in Mine(t);
      Erase(t, ptr, RemoveFrom(sets, ty, ptr));
      Interfere(t);
    }

    /** Reading a native object and deleting it. */
    method TakeNative(t: Tid, ptr: Ptr, ghost before: map<Ptr, Res>) returns (r: Res)
      requires Valid() && ptr !in before && ptr in Mine(t) && Mine(t) == before[ptr := Mine(t)[ptr]]
      requires !Mine(t)[ptr].Handle?
      modifies this
      ensures Valid() && Mine(t) == before && Stray(t) == old(Stray(t)) && r == old(Mine(t)[ptr])
    {
      r := Look(t, ptr);
      DeleteNative(t, ptr);
    }

    /** Taking the Python object behind a handle and giving the handle up. */
    method TakeHandle(t: Tid, ty: Ty, ptr: Ptr, ghost before: map<Ptr, Res>) returns (p: Py)
      requires Valid() && ptr !in before && ptr in Mine(t) && Mine(t) == before[ptr := Mine(t)[ptr]]
      requires Mine(t)[ptr].Handle? && Mine(t)[ptr].ty == ty
      modifies this
      ensures Valid() && Mine(t) == before && Stray(t) == old(Stray(t)) && p == old(Mine(t)[ptr].val)
    {
      var r := Look(t, ptr);
      p := r.val;
      Unregister(t, ty, ptr);
    }

    /** What a wire owns is left behind, if it owns anything. */
    method Leave(t: Tid, w: Wire, ghost before: map<Ptr, Res>, ghost parcel: Parcel)
      requires Valid() && Carries(before, Mine(t), parcel, w)
      modifies this
      ensures Valid() && Mine(t) == before && Grown(old(Stray(t)), Stray(t), ResOf(parcel))
    {
      if w.At? {
        Forget(t, w.ptr);
        GrownByOne(old(Stray(t)), w.ptr, parcel.res);
      }
    }

    // ---------------------------------------------------------------------------------------------
    // The Python side of the wire
    // ---------------------------------------------------------------------------------------------

    /** Python takes over what came from C++; None when the conversion raises. */
    method WireToPy(t: Tid, ty: Ty, w: Wire, ghost before: map<Ptr, Res>, ghost v: Cpp) returns (r: Option<Py>)
      requires Valid() && Fits(ty, v) && Carries(before, Mine(t), Send(ty, v), w)
      modifies this
      ensures Valid() && Mine(t) == before && Stray(t) == old(Stray(t)) && r == Arrives(ty, v)
      decreases ty
    {
      match ty
      case TInt(_, _) =>
        r := Some(PInt(w.n));
      case TStr =>
        var res := TakeNative(t, w.ptr, before);
        r := if Utf8.WellFormed(res.s) then Some(PStr(Utf8.Decode(res.s))) else None;
      case TBin =>
        var res := TakeNative(t, w.ptr, before);
        r := Some(PBin(res.b));
      case TOpt(base) =>
        if v.CSome? {
          EmptyIff(base, v.v);
        }
        if w.Null? {
          r := Some(PNone);
        } else if base.TInt? {
          var res := TakeNative(t, w.ptr, before);
          r := Some(PInt(res.n));
        } else {
          r := WireToPy(t, base, w, before, v.v);
        }
      case _ =>
        if w.Null? {
          r := None;
        } else {
          var p := TakeHandle(t, ty, w.ptr, before);
          r := Some(p);
        }
    }

    /** Python hands a value to C++. */
    method PyToWire(t: Tid, ty: Ty, p: Py) returns (w: Wire)
      requires Valid() && PyFits(ty, p)
      modifies this
      ensures Valid() && Carries(old(Mine(t)), Mine(t), Offer(ty, p), w) && Stray(t) == old(Stray(t))
      decreases ty
    {
      match ty
      case TInt(_, _) =>
        w := Number(p.n);
      case TStr =>
        var ptr := New(t, String(Utf8.EncodeAll(p.t)));
        w := At(ptr);
      case TBin =>
        var ptr := New(t, Binary(p.b));
        w := At(ptr);
      case TOpt(base) =>
        if p.PNone? {
          w := Null;
        } else if base.TInt? {
          var ptr := New(t, Boxed(p.n));
          w := At(ptr);
        } else {
          w := PyToWire(t, base, p);
        }
      case _ =>
        var ptr := New(t, Handle(ty, p, Iter(KeysOf(p), KeysOf(p))));
        w := At(ptr);
    }

    // ---------------------------------------------------------------------------------------------
    // Python callbacks that fill a container through its handle. What they raise, C++ never sees.
    // ---------------------------------------------------------------------------------------------

    /** Changes the object behind a handle that C++ fills. */
    method Assign(t: Tid, h: Ptr, ghost ty: Ty, p: Py, ghost before: map<Ptr, Res>, ghost was: Py)
      requires Valid() && Mine(t) == before[h := Handle(ty, was, NO_ITER)]
      modifies this
      ensures Valid() && Mine(t) == before[h := Handle(ty, p, NO_ITER)] && Stray(t) == old(Stray(t))
    {
      var proxy := Look(t, h);
      Change(t, h, proxy.(val := p));
    }

    method PythonListAdd(t: Tid, h: Ptr, elem: Ty, el: Wire, ghost before: map<Ptr, Res>, ghost done: seq<Py>,
                         ghost v: Cpp)
      requires Valid() && Fits(elem, v)
      requires Carries(before[h := Handle(TList(elem), PList(done), NO_ITER)], Mine(t), Send(elem, v), el)
      modifies this
      ensures Valid() && Stray(t) == old(Stray(t))
      ensures var p := Arrives(elem, v);
              Mine(t) == before[h := Handle(TList(elem), PList(done + if p.Some? then [p.value] else []), NO_ITER)]
    {
      var e := WireToPy(t, elem, el, before[h := Handle(TList(elem), PList(done), NO_ITER)], v);
      if e.Some? {
        var list := Look(t, h);
        Assign(t, h, TList(elem), PList(list.val.es + [e.value]), before, PList(done));
      } else {
        assert done + [] == done;
      }
    }

    method PythonSetAdd(t: Tid, h: Ptr, kt: KeyTy, el: Wire, ghost before: map<Ptr, Res>, ghost done: set<PyKey>,
                        ghost k: Key)
      requires Valid() && KeyFits(kt, k) && Fits(KeyType(kt), CppKey(k))
      requires Carries(before[h := Handle(TSet(kt), PSet(done), NO_ITER)], Mine(t), Send(KeyType(kt), CppKey(k)), el)
      modifies this
      ensures Valid() && Stray(t) == old(Stray(t))
      ensures Mine(t) == before[h := Handle(TSet(kt), PSet(WithKey(done, k)), NO_ITER)]
    {
      KeyArrives(kt, k);
      var e := WireToPy(t, KeyType(kt), el, before[h := Handle(TSet(kt), PSet(done), NO_ITER)], CppKey(k));
      if e.Some? {
        var proxy := Look(t, h);
        Assign(t, h, TSet(kt), PSet(proxy.val.ks + {AsPyKey(e.value)}), before, PSet(done));
      }
    }

    /** An assignment to a dict entry evaluates the value before the key: if it raises, the key stays behind. */
    method PythonDictAdd(t: Tid, h: Ptr, ty: Ty, key: Wire, val: Wire, ghost before: map<Ptr, Res>,
                         ghost done: map<PyKey, Py>, ghost withKey: map<Ptr, Res>, ghost k: Key, ghost v: Cpp)
      requires Valid() && ty.TMap? && KeyFits(ty.key, k) && Fits(KeyType(ty.key), CppKey(k)) && Fits(ty.val, v)
      requires Carries(before[h := Handle(ty, PDict(done), NO_ITER)], withKey, Send(KeyType(ty.key), CppKey(k)), key)
      requires Carries(withKey, Mine(t), Send(ty.val, v), val)
      modifies this
      ensures Valid() && Mine(t) == before[h := Handle(ty, PDict(WithEntry(done, k, Entry(ty.val, k, v))), NO_ITER)]
      ensures Grown(old(Stray(t)), Stray(t), KeyLeft(ty.val, k, v))
    {
      KeyArrives(ty.key, k);
      ghost var held := before[h := Handle(ty, PDict(done), NO_ITER)];
      var pyVal := WireToPy(t, ty.val, val, withKey, v);
      if pyVal.None? {
        Leave(t, key, held, Send(KeyType(ty.key), CppKey(k)));
      } else {
        var pyKey := WireToPy(t, KeyType(ty.key), key, held, CppKey(k));
        if pyKey.Some? {
          AssignEntry(t, h, ty, AsPyKey(pyKey.value), pyVal.value, before, done);
        }
      }
    }

    method AssignEntry(t: Tid, h: Ptr, ghost ty: Ty, k: PyKey, p: Py, ghost before: map<Ptr, Res>,
                       ghost done: map<PyKey, Py>)
      requires Valid() && Mine(t) == before[h := Handle(ty, PDict(done), NO_ITER)]
      modifies this
      ensures Valid() && Mine(t) == before[h := Handle(ty, PDict(done[k := p]), NO_ITER)] && Stray(t) == old(Stray(t))
    {
      var proxy := Look(t, h);
      Assign(t, h, ty, PDict(proxy.val.m[k := p]), before, PDict(done));
    }

    // ---------------------------------------------------------------------------------------------
    // The C++ side of the wire: fromCpp
    // ---------------------------------------------------------------------------------------------

    /** C++ hands a value to Python. */
    method CppToWire(t: Tid, ty: Ty, v: Cpp) returns (w: Wire)
      requires Valid() && Fits(ty, v)
      modifies this
      ensures Valid() && Carries(old(Mine(t)), Mine(t), Send(ty, v), w)
      ensures Grown(old(Stray(t)), Stray(t), Left(ty, v))
      decreases ty, 4
    {
      match ty
      case TInt(_, _) =>
        w := Number(v.n);
      case TStr =>
        var ptr := New(t, String(v.s));
        w := At(ptr);
      case TBin =>
        var ptr := New(t, Binary(v.b));
        w := At(ptr);
      case TOpt(base) =>
        if v.CNone? {
          w := Null;
        } else if base.TInt? {
          assert Fits(base, v.v) && Left(base, v.v) == multiset{};
          var ptr := New(t, Boxed(v.v.n));
          w := At(ptr);
        } else {
          w := CppToWire(t, base, v.v);
        }
      case TList(_) =>
        var ptr := ListToWire(t, ty, v);
        w := At(ptr);
      case TSet(_) =>
        var ptr := SetToWire(t, ty, v);
        w := At(ptr);
      case TMap(_, _) =>
        var ptr := MapToWire(t, ty, v);
        w := At(ptr);
      case TRec(_, _) =>
        w := RecordToWire(t, ty, v);
    }

    /** Creates an empty Python list and appends the elements one by one. */
    method ListToWire(t: Tid, ty: Ty, v: Cpp) returns (h: Ptr)
      requires Valid() && ty.TList? && Fits(ty, v)
      modifies this
      ensures Valid() && h !in old(Mine(t)) && Mine(t) == old(Mine(t))[h := Handle(ty, Arrives(ty, v).value, NO_ITER)]
      ensures Grown(old(Stray(t)), Stray(t), Left(ty, v))
      decreases ty, 1
    {
      ghost var os, bags := Elements(ty.elem, v.es), ElementsLeft(ty.elem, v.es);
      h := New(t, Handle(ty, PList([]), NO_ITER));
      ElementsToWire(t, ty.elem, h, old(Mine(t)), v.es, os, bags);
    }

    method ElementsToWire(t: Tid, elem: Ty, h: Ptr, ghost before: map<Ptr, Res>, es: seq<Cpp>,
                          ghost os: seq<Option<Py>>, ghost bags: seq<multiset<Res>>)
      requires Valid() && Mine(t) == before[h := Handle(TList(elem), PList([]), NO_ITER)]
      requires |os| == |bags| == |es|
      requires forall i :: 0 <= i < |es| ==>
        Fits(elem, es[i]) && os[i] == Arrives(elem, es[i]) && bags[i] == Left(elem, es[i])
      modifies this
      ensures Valid() && Mine(t) == before[h := Handle(TList(elem), PList(Present(os)), NO_ITER)]
      ensures Grown(old(Stray(t)), Stray(t), Total(bags))
      decreases elem, 5
    {
      ghost var stray := Stray(t);
      var i := 0;
      while i < |es|
        invariant 0 <= i <= |es| && Valid()
        invariant Mine(t) == before[h := Handle(TList(elem), PList(Present(os[..i])), NO_ITER)]
        invariant Grown(stray, Stray(t), Total(bags[..i]))
      {
        ghost var stray' := Stray(t);
        var el := CppToWire(t, elem, es[i]);
        PythonListAdd(t, h, elem, el, before, Present(os[..i]), es[i]);
        GrownTwice(stray, stray', Total(bags[..i]), Stray(t), bags[i]);
        assert os[..i + 1][..i] == os[..i] && bags[..i + 1][..i] == bags[..i];
        i := i + 1;
      }
      assert os[..i] == os && bags[..i] == bags;
    }

    method KeyToWire(t: Tid, kt: KeyTy, k: Key) returns (w: Wire)
      requires Valid() && KeyFits(kt, k)
      modifies this
      ensures Fits(KeyType(kt), CppKey(k))
      ensures Valid() && Carries(old(Mine(t)), Mine(t), Send(KeyType(kt), CppKey(k)), w) && Stray(t) == old(Stray(t))
    {
      match k
      case KInt(n) =>
        w := Number(n);
      case KStr(s) =>
        var ptr := New(t, String(s));
        w := At(ptr);
    }

    /** Creates an empty Python set and adds the elements in the order in which the C++ set yields them. */
    method SetToWire(t: Tid, ty: Ty, v: Cpp) returns (h: Ptr)
      requires Valid() && ty.TSet? && Fits(ty, v)
      modifies this
      ensures Valid() && h !in old(Mine(t)) && Mine(t) == old(Mine(t))[h := Handle(ty, Arrives(ty, v).value, NO_ITER)]
      ensures Stray(t) == old(Stray(t))
    {
      ghost var before := Mine(t);
      h := New(t, Handle(ty, PSet({}), NO_ITER));
      var todo := v.ks;
      assert KeysToPy(Decoding(v.ks - todo)) == {};
      while todo != {}
        invariant todo <= v.ks && Valid() && Stray(t) == old(Stray(t))
        invariant Mine(t) == before[h := Handle(ty, PSet(KeysToPy(Decoding(v.ks - todo))), NO_ITER)]
      {
        var k :| k in todo;
        var el := KeyToWire(t, ty.key, k);
        PythonSetAdd(t, h, ty.key, el, before, KeysToPy(Decoding(v.ks - todo)), k);
        KeysOneMore(v.ks - todo, k);
        assert v.ks - (todo - {k}) == v.ks - todo + {k};
        todo := todo - {k};
      }
      assert v.ks - todo == v.ks;
    }

    /** Creates an empty Python dict and assigns the entries one by one. */
    method MapToWire(t: Tid, ty: Ty, v: Cpp) returns (h: Ptr)
      requires Valid() && ty.TMap? && Fits(ty, v)
      modifies this
      ensures Valid() && h !in old(Mine(t)) && Mine(t) == old(Mine(t))[h := Handle(ty, Arrives(ty, v).value, NO_ITER)]
      ensures Grown(old(Stray(t)), Stray(t), Left(ty, v))
      decreases ty, 3
    {
      ghost var os, bags := Entries(ty.key, ty.val, v.m), EntriesLeft(ty.key, ty.val, v.m);
      h := New(t, Handle(ty, PDict(map[]), NO_ITER));
      EntriesToWire(t, ty, h, old(Mine(t)), v.m, os, bags);
    }

    /** The entries under the keys `done` have been sent. */
    static ghost predicate SentSoFar(before: map<Ptr, Res>, mine: map<Ptr, Res>, stray: map<Ptr, Res>,
                                     stray': map<Ptr, Res>, h: Ptr, ty: Ty, os: map<Key, Option<Py>>,
                                     bags: map<Key, multiset<Res>>, done: set<Key>)
      requires ty.TMap?
    {
      && AllDecodable(ty.key, Part(os, done))
      && mine == before[h := Handle(ty, PDict(Rekeyed(ty.key, PresentIn(Part(os, done)))), NO_ITER)]
      && Grown(stray, stray', TotalOf(Part(bags, done)))
    }

    /** What arrives of an entry, and what stays behind. */
    static ghost predicate Crosses(ty: Ty, k: Key, v: Cpp, o: Option<Py>, bag: multiset<Res>)
      requires ty.TMap?
    {
      KeyFits(ty.key, k) && Fits(ty.val, v) && o == Entry(ty.val, k, v) && bag == EntryLeft(ty.val, k, v)
    }

    static lemma SentNothing(before: map<Ptr, Res>, mine: map<Ptr, Res>, stray: map<Ptr, Res>, h: Ptr, ty: Ty,
                             os: map<Key, Option<Py>>, bags: map<Key, multiset<Res>>)
      requires ty.TMap? && mine == before[h := Handle(ty, PDict(map[]), NO_ITER)]
      ensures SentSoFar(before, mine, stray, stray, h, ty, os, bags, {})
    {
      WholePart(os);
      WholePart(bags);
    }

    static lemma SentAll(before: map<Ptr, Res>, mine: map<Ptr, Res>, stray: map<Ptr, Res>, stray': map<Ptr, Res>,
                         h: Ptr,
                         ty: Ty, os: map<Key, Option<Py>>, bags: map<Key, multiset<Res>>)
      requires ty.TMap? && os.Keys == bags.Keys && SentSoFar(before, mine, stray, stray', h, ty, os, bags, os.Keys)
      ensures AllDecodable(ty.key, os)
      ensures mine == before[h := Handle(ty, PDict(Rekeyed(ty.key, PresentIn(os))), NO_ITER)]
      ensures Grown(stray, stray', TotalOf(bags))
    {
      WholePart(os);
      WholePart(bags);
    }

    method EntriesToWire(t: Tid, ty: Ty, h: Ptr, ghost before: map<Ptr, Res>, m: map<Key, Cpp>,
                         ghost os: map<Key, Option<Py>>, ghost bags: map<Key, multiset<Res>>)
      requires Valid() && ty.TMap? && Mine(t) == before[h := Handle(ty, PDict(map[]), NO_ITER)]
      requires m.Keys == os.Keys == bags.Keys && AllDecodable(ty.key, os)
      requires forall k {:trigger Crosses(ty, k, m[k], os[k], bags[k])} :: k in m ==>
        Crosses(ty, k, m[k], os[k], bags[k])
      modifies this
      ensures Valid() && Mine(t) == before[h := Handle(ty, PDict(Rekeyed(ty.key, PresentIn(os))), NO_ITER)]
      ensures Grown(old(Stray(t)), Stray(t), TotalOf(bags))
      decreases ty, 2
    {
      ghost var stray := Stray(t);
      var todo := m.Keys;
      SentNothing(before, Mine(t), stray, h, ty, os, bags);
      assert os.Keys - todo == {};
      while todo != {}
        invariant todo <= m.Keys && Valid()
        invariant SentSoFar(before, Mine(t), stray, Stray(t), h, ty, os, bags, os.Keys - todo)
        decreases todo
      {
        todo := NextToWire(t, ty, h, before, stray, m, os, bags, todo);
      }
      assert os.Keys - todo == os.Keys;
      SentAll(before, Mine(t), stray, Stray(t), h, ty, os, bags);
    }

    method NextToWire(t: Tid, ty: Ty, h: Ptr, ghost before: map<Ptr, Res>, ghost stray: map<Ptr, Res>, m: map<Key, Cpp>,
                      ghost os: map<Key, Option<Py>>, ghost bags: map<Key, multiset<Res>>, todo: set<Key>)
      returns (todo': set<Key>)
      requires Valid() && ty.TMap? && m.Keys == os.Keys == bags.Keys && AllDecodable(ty.key, os)
      requires forall k {:trigger Crosses(ty, k, m[k], os[k], bags[k])} :: k in m ==>
        Crosses(ty, k, m[k], os[k], bags[k])
      requires todo <= m.Keys && todo != {}
      requires SentSoFar(before, Mine(t), stray, Stray(t), h, ty, os, bags, os.Keys - todo)
      modifies this
      ensures Valid() && todo' < todo
      ensures SentSoFar(before, Mine(t), stray, Stray(t), h, ty, os, bags, os.Keys - todo')
      decreases ty, 1
    {
      var k :| k in todo;
      todo' := todo - {k};
      ghost var done := os.Keys - todo;
      assert os.Keys - todo' == done + {k};
      EntryToWire(t, ty, h, before, stray, m[k], os, bags, done, k);
    }

    method EntryToWire(t: Tid, ty: Ty, h: Ptr, ghost before: map<Ptr, Res>, ghost stray: map<Ptr, Res>, v: Cpp,
                       ghost os: map<Key, Option<Py>>, ghost bags: map<Key, multiset<Res>>, ghost done: set<Key>,
                       k: Key)
      requires Valid() && ty.TMap? && k in os && k in bags && k !in done && AllDecodable(ty.key, os)
      requires Crosses(ty, k, v, os[k], bags[k])
      requires SentSoFar(before, Mine(t), stray, Stray(t), h, ty, os, bags, done)
      modifies this
      ensures Valid() && SentSoFar(before, Mine(t), stray, Stray(t), h, ty, os, bags, done + {k})
      decreases ty, 0
    {
      var key := KeyToWire(t, ty.key, k);
      ghost var withKey, stray0 := Mine(t), Stray(t);
      var val := CppToWire(t, ty.val, v);
      ghost var stray1 := Stray(t);
      PythonDictAdd(t, h, ty, key, val, before, Rekeyed(ty.key, PresentIn(Part(os, done))), withKey, k, v);
      EntriesOneMore(ty.key, os, done, k);
      LeftOneMore(bags, done, k);
      GrownTwice(stray0, stray1, Left(ty.val, v), Stray(t), KeyLeft(ty.val, k, v));
      GrownTwice(stray, stray0, TotalOf(Part(bags, done)), Stray(t), bags[k]);
    }

    /** Converts all the fields first; the Python constructor then takes them over one by one. Null if it raises. */
    method RecordToWire(t: Tid, ty: Ty, v: Cpp) returns (w: Wire)
      requires Valid() && ty.TRec? && Fits(ty, v)
      modifies this
      ensures Valid() && Carries(old(Mine(t)), Mine(t), Send(ty, v), w)
      ensures Grown(old(Stray(t)), Stray(t), Left(ty, v))
      decreases ty, 1
    {
      ghost var os, parcels, bags := Fields(ty, v), Sends(ty, v), FieldsLeft(ty, v);
      var ws := FieldsToWire(t, ty, v.fs, parcels, bags);
      ghost var stray := Stray(t);
      var fs := FieldsToPy(t, ty.fields, ws, old(Mine(t)), v.fs, os, parcels);
      GrownTwice(old(Stray(t)), stray, Total(bags), Stray(t), Unread(os, parcels, 0));
      if fs.None? {
        return Null;
      }
      var h := New(t, Handle(ty, PRec(fs.value), NO_ITER));
      w := At(h);
    }

    method FieldsToWire(t: Tid, ty: Ty, vs: seq<Cpp>, ghost parcels: seq<Parcel>, ghost bags: seq<multiset<Res>>)
      returns (ws: seq<Wire>)
      requires Valid() && ty.TRec? && |vs| == |parcels| == |bags| == |ty.fields|
      requires forall i :: 0 <= i < |vs| ==> Fits(ty.fields[i], vs[i])
      requires forall i :: 0 <= i < |vs| ==>
        parcels[i] == Send(ty.fields[i], vs[i]) && bags[i] == Left(ty.fields[i], vs[i])
      modifies this
      ensures Valid() && |ws| == |parcels| && CarriesAll(old(Mine(t)), Mine(t), parcels, ws)
      ensures Grown(old(Stray(t)), Stray(t), Total(bags))
      decreases ty, 0
    {
      ghost var before, stray := Mine(t), Stray(t);
      var n := |ty.fields|;
      ws := [];
      var i := 0;
      while i < n
        invariant 0 <= i == |ws| <= n && Valid()
        invariant CarriesAll(before, Mine(t), parcels[..i], ws)
        invariant Grown(stray, Stray(t), Total(bags[..i]))
      {
        ghost var mine, stray' := Mine(t), Stray(t);
        var w := CppToWire(t, ty.fields[i], vs[i]);
        CarriesNext(before, mine, parcels, ws, Mine(t), w);
        GrownTwice(stray, stray', Total(bags[..i]), Stray(t), bags[i]);
        assert bags[..i + 1][..i] == bags[..i];
        ws := ws + [w];
        i := i + 1;
      }
      assert parcels[..n] == parcels && bags[..n] == bags;
    }

    /** What arrives of a field, and what is sent for it. */
    static ghost predicate FieldCrosses(ty: Ty, v: Cpp, o: Option<Py>, parcel: Parcel)
    {
      Fits(ty, v) && o == Arrives(ty, v) && parcel == Send(ty, v)
    }

    method FieldToPy(t: Tid, ty: Ty, w: Wire, ghost before: map<Ptr, Res>, ghost v: Cpp, ghost o: Option<Py>,
                     ghost parcel: Parcel) returns (p: Option<Py>)
      requires Valid() && FieldCrosses(ty, v, o, parcel) && Carries(before, Mine(t), parcel, w)
      modifies this
      ensures Valid() && Mine(t) == before && Stray(t) == old(Stray(t)) && p == o
    {
      p := WireToPy(t, ty, w, before, v);
    }

    /** The arguments of the record's constructor, in order. Those after one that raises stay behind. */
    method FieldsToPy(t: Tid, tys: seq<Ty>, ws: seq<Wire>, ghost before: map<Ptr, Res>, ghost vs: seq<Cpp>,
                      ghost os: seq<Option<Py>>, ghost parcels: seq<Parcel>) returns (fs: Option<seq<Py>>)
      requires Valid() && |ws| == |tys| == |vs| == |os| == |parcels|
      requires forall i {:trigger FieldCrosses(tys[i], vs[i], os[i], parcels[i])} :: 0 <= i < |tys| ==>
        FieldCrosses(tys[i], vs[i], os[i], parcels[i])
      requires CarriesAll(before, Mine(t), parcels, ws)
      modifies this
      ensures Valid() && Mine(t) == before && Grown(old(Stray(t)), Stray(t), Unread(os, parcels, 0))
      ensures fs == if forall i :: 0 <= i < |os| ==> os[i].Some? then Some(Present(os)) else None
    {
      var ps: seq<Py> := [];
      var i := 0;
      while i < |ws|
        invariant 0 <= i <= |ws| && Valid() && Stray(t) == old(Stray(t))
        invariant CarriesAll(before, Mine(t), parcels[i..], ws[i..])
        invariant ps == Present(os[..i]) && forall j :: 0 <= j < i ==> os[j].Some?
        invariant Unread(os, parcels, 0) == Unread(os, parcels, i)
      {
        CarriesFirst(before, Mine(t), parcels, ws, i);
        var p := FieldToPy(t, tys[i], ws[i], Drop(Mine(t), ws[i]), vs[i], os[i], parcels[i]);
        if p.None? {
          LeaveRest(t, ws, before, parcels, i + 1);
          return None;
        }
        ps := ps + [p.value];
        assert os[..i + 1][..i] == os[..i];
        i := i + 1;
      }
      assert os[..i] == os;
      fs := Some(ps);
    }

    method LeaveRest(t: Tid, ws: seq<Wire>, ghost before: map<Ptr, Res>, ghost parcels: seq<Parcel>, i: nat)
      requires Valid() && i <= |ws| == |parcels| && CarriesAll(before, Mine(t), parcels[i..], ws[i..])
      modifies this
      ensures Valid() && Mine(t) == before && Grown(old(Stray(t)), Stray(t), Dropped(parcels, i))
      decreases |ws| - i
    {
      if i < |ws| {
        CarriesFirst(before, Mine(t), parcels, ws, i);
        Leave(t, ws[i], Drop(Mine(t), ws[i]), parcels[i]);
        ghost var stray := Stray(t);
        LeaveRest(t, ws, before, parcels, i + 1);
        GrownTwice(old(Stray(t)), stray, ResOf(parcels[i]), Stray(t), Dropped(parcels, i + 1));
      }
    }

    // ---------------------------------------------------------------------------------------------
    // The C++ side of the wire: toCpp
    // ---------------------------------------------------------------------------------------------

    /** The `next` callback. It raises when the object has grown since the iterator was made, and when there is nothing
        left to yield. */
    method PythonNext(t: Tid, h: Ptr, ghost before: map<Ptr, Res>, ghost ty: Ty, ghost p: Py, ghost it: Iter)
      returns (k: Option<PyKey>)
      requires Valid() && IteratesOver(before, Mine(t), h, ty, p, it)
      modifies this
      ensures Valid() && Stray(t) == old(Stray(t)) && (k.None? <==> it.made != KeysOf(p) || it.left == {})
      ensures k.None? ==> Mine(t) == old(Mine(t))
      ensures k.Some? ==> k.value in it.left
      ensures k.Some? ==> IteratesOver(before, Mine(t), h, ty, p, it.(left := it.left - {k.value}))
    {
      var proxy := Look(t, h);
      SameWhenNotGrown(it.made, KeysOf(p));
      if |KeysOf(proxy.val)| != |proxy.iter.made| || proxy.iter.left == {} {
        return None;
      }
      var key :| key in proxy.iter.left;
      Change(t, h, proxy.(iter := proxy.iter.(left := proxy.iter.left - {key})));
      k := Some(key);
    }

    lemma SameWhenNotGrown(made: set<PyKey>, ks: set<PyKey>)
      requires made <= ks
      ensures |made| == |ks| <==> made == ks
    {
      if made != ks {
        assert |ks - made| > 0;
      }
    }

    /** C++ takes over what came from Python. */
    method WireToCpp(t: Tid, ty: Ty, w: Wire, ghost before: map<Ptr, Res>, ghost p: Py) returns (v: Cpp)
      requires Valid() && PyFits(ty, p) && Carries(before, Mine(t), Offer(ty, p), w)
      modifies this
      ensures Valid() && Mine(t) == before && Stray(t) == old(Stray(t)) && v == ToCpp(ty, p)
      decreases ty, 3
    {
      match ty
      case TInt(_, _) =>
        v := CInt(w.n);
      case TStr =>
        var res := TakeNative(t, w.ptr, before);
        v := CStr(res.s);
      case TBin =>
        var res := TakeNative(t, w.ptr, before);
        v := CBin(res.b);
      case TOpt(base) =>
        assert !p.PNone? ==> PyFits(base, p) && (base.TInt? || Offer(base, p).Owned?);
        if w.Null? {
          v := CNone;
        } else if base.TInt? {
          var res := TakeNative(t, w.ptr, before);
          v := CSome(CInt(res.n));
        } else {
          var x := WireToCpp(t, base, w, before, p);
          v := CSome(x);
        }
      case TList(_) => v := ListToCpp(t, ty, w.ptr, before, p);
      case TSet(_) =>
        var s := SetToCpp(t, ty, w.ptr, before, p, Iter(KeysOf(p), KeysOf(p)));
        v := s.value;
      case TMap(_, _) =>
        var m := MapToCpp(t, ty, w.ptr, before, p, Iter(KeysOf(p), KeysOf(p)));
        v := m.value;
      case TRec(_, _) => v := RecordToCpp(t, ty, w.ptr, before, p);
    }

    /** Asks for the size, then for one element after the other; the handle is given up at the end. */
    method ListToCpp(t: Tid, ty: Ty, h: Ptr, ghost before: map<Ptr, Res>, ghost p: Py) returns (v: Cpp)
      requires Valid() && ty.TList? && PyFits(ty, p)
      requires h !in before && Mine(t) == before[h := Handle(ty, p, Iter(KeysOf(p), KeysOf(p)))]
      modifies this
      ensures Valid() && Mine(t) == before && Stray(t) == old(Stray(t)) && v == ToCpp(ty, p)
      decreases ty, 1
    {
      ghost var held, all := Mine(t), ToCpp(ty, p).es;
      var list := Look(t, h);
      var size := |list.val.es|;
      var es: seq<Cpp> := [];
      var i := 0;
      while i < size
        invariant 0 <= i <= size && Valid() && Mine(t) == held && Stray(t) == old(Stray(t)) && es == all[..i]
      {
        list := Look(t, h);
        var el := PyToWire(t, ty.elem, list.val.es[i]);
        var e := WireToCpp(t, ty.elem, el, held, p.es[i]);
        es := es + [e];
        i := i + 1;
      }
      ghost var last := TakeHandle(t, ty, h, before);
      v := CList(es);
    }

    /** Asks for the size, then as often for the next element of the one-shot iterator. It gets the whole set exactly
        when the iterator was made over what the set contains now and has not been used; else `next` raises, and
        None stands for whatever is computed with the null it returns. */
    method SetToCpp(t: Tid, ty: Ty, h: Ptr, ghost before: map<Ptr, Res>, ghost p: Py, ghost it: Iter)
      returns (v: Option<Cpp>)
      requires Valid() && ty.TSet? && PyFits(ty, p) && h !in before && IteratesOver(before, Mine(t), h, ty, p, it)
      modifies this
      ensures Valid() && Mine(t) == before && Stray(t) == old(Stray(t))
      ensures v == if it.left == p.ks then Some(ToCpp(ty, p)) else None
    {
      var proxy := Look(t, h);
      var size := |proxy.val.ks|;
      var ks: set<Key> := {};
      var i := 0;
      var failed := false;
      ghost var left := it.left;
      SmallerUnlessEqual(it.left, p.ks);
      while i < size && !failed
        decreases size - i, !failed
        invariant 0 <= i <= size && Valid() && Stray(t) == old(Stray(t)) && left <= it.left && |left| == |it.left| - i
        invariant IteratesOver(before, Mine(t), h, ty, p, it.(left := left))
        invariant failed ==> i < size && (it.made != p.ks || left == {})
        invariant 0 < i ==> it.made == p.ks
        invariant ks == KeysToCpp(it.left - left)
      {
        var e;
        e, left := NextElement(t, ty, h, before, p, it.(left := left), it.left);
        if e.None? {
          failed := true;
        } else {
          ks := ks + {e.value};
          i := i + 1;
        }
      }
      assert left == {} ==> it.left - left == it.left;
      ghost var last := TakeHandle(t, ty, h, before);
      v := if failed then None else Some(CSet(ks));
    }

    lemma SmallerUnlessEqual(left: set<PyKey>, ks: set<PyKey>)
      requires left <= ks
      ensures if left == ks then |left| == |ks| else |left| < |ks|
    {
      if left != ks {
        assert |ks - left| > 0;
      }
    }

    method NextElement(t: Tid, ty: Ty, h: Ptr, ghost before: map<Ptr, Res>, ghost p: Py, ghost it: Iter,
                       ghost all: set<PyKey>)
      returns (e: Option<Key>, ghost left: set<PyKey>)
      requires Valid() && ty.TSet? && PyFits(ty, p) && IteratesOver(before, Mine(t), h, ty, p, it) && it.left <= all
      modifies this
      ensures Valid() && Stray(t) == old(Stray(t)) && IteratesOver(before, Mine(t), h, ty, p, it.(left := left))
      ensures e.None? <==> it.made != p.ks || it.left == {}
      ensures e.None? ==> left == it.left
      ensures e.Some? ==> left <= it.left && |left| == |it.left| - 1
      ensures e.Some? ==> KeysToCpp(all - left) == KeysToCpp(all - it.left) + {e.value}
    {
      var k := PythonNext(t, h, before, ty, p, it);
      if k.None? {
        return None, it.left;
      }
      left := it.left - {k.value};
      ghost var held := Mine(t);
      var el := PyToWire(t, KeyType(ty.key), PythonKey(k.value));
      var key := KeyToCpp'(t, ty.key, el, held, k.value);
      PyKeysOneMore(all - it.left, k.value);
      assert all - left == all - it.left + {k.value};
      e := Some(key);
    }

    method KeyToCpp'(t: Tid, kt: KeyTy, w: Wire, ghost before: map<Ptr, Res>, ghost k: PyKey) returns (r: Key)
      requires Valid() && PyKeyFits(kt, k) && Carries(before, Mine(t), Offer(KeyType(kt), PythonKey(k)), w)
      modifies this
      ensures Valid() && Mine(t) == before && Stray(t) == old(Stray(t)) && r == KeyToCpp(k)
    {
      if kt.IntKey? {
        r := KInt(w.n);
      } else {
        var res := TakeNative(t, w.ptr, before);
        r := KStr(res.s);
      }
    }

    /** The key as Python sees it, without taking it over. */
    method PeekKey(t: Tid, kt: KeyTy, w: Wire, ghost before: map<Ptr, Res>, ghost k: PyKey) returns (r: PyKey)
      requires Valid() && PyKeyFits(kt, k) && Carries(before, Mine(t), Offer(KeyType(kt), PythonKey(k)), w)
      modifies this
      ensures Valid() && Mine(t) == old(Mine(t)) && Stray(t) == old(Stray(t)) && r == k
    {
      if kt.IntKey? {
        r := PKInt(w.n);
      } else {
        Utf8.DecodeOfEncodeAll(PythonKey(k).t);
        var res := Look(t, w.ptr);
        r := PKStr(Utf8.Decode(res.s));
      }
    }

    /** Each key the iterator yields is used to ask for its value before it is taken over itself. */
    method MapToCpp(t: Tid, ty: Ty, h: Ptr, ghost before: map<Ptr, Res>, ghost p: Py, ghost it: Iter)
      returns (v: Option<Cpp>)
      requires Valid() && ty.TMap? && PyFits(ty, p) && h !in before && IteratesOver(before, Mine(t), h, ty, p, it)
      modifies this
      ensures Valid() && Mine(t) == before && Stray(t) == old(Stray(t))
      ensures v == if it.left == p.m.Keys then Some(ToCpp(ty, p)) else None
      decreases ty, 2
    {
      var proxy := Look(t, h);
      var size := |proxy.val.m|;
      var m: map<Key, Cpp> := map[];
      var i := 0;
      var failed := false;
      ghost var left := it.left;
      SmallerUnlessEqual(it.left, p.m.Keys);
      MapOfNothing(ty.key, ty.val, p.m);
      assert it.left - left == {};
      while i < size && !failed
        decreases size - i, !failed
        invariant 0 <= i <= size && Valid() && Stray(t) == old(Stray(t)) && left <= it.left && |left| == |it.left| - i
        invariant IteratesOver(before, Mine(t), h, ty, p, it.(left := left))
        invariant failed ==> i < size && (it.made != p.m.Keys || left == {})
        invariant 0 < i ==> it.made == p.m.Keys
        invariant m == MapOf(ty.key, ty.val, p.m, it.left - left)
      {
        var entry;
        entry, left := NextEntry(t, ty, h, before, p, it.(left := left), it.left);
        if entry.None? {
          failed := true;
        } else {
          if entry.value.0 !in m {
            m := m[entry.value.0 := entry.value.1];
          }
          i := i + 1;
        }
      }
      MapOfAll(ty.key, ty.val, p.m);
      assert left == {} ==> it.left - left == it.left;
      ghost var last := TakeHandle(t, ty, h, before);
      v := if failed then None else Some(CMap(m));
    }

    method NextEntry(t: Tid, ty: Ty, h: Ptr, ghost before: map<Ptr, Res>, ghost p: Py, ghost it: Iter,
                     ghost all: set<PyKey>)
      returns (entry: Option<(Key, Cpp)>, ghost left: set<PyKey>)
      requires Valid() && ty.TMap? && PyFits(ty, p) && IteratesOver(before, Mine(t), h, ty, p, it)
      requires it.left <= all <= p.m.Keys
      modifies this
      ensures Valid() && Stray(t) == old(Stray(t)) && IteratesOver(before, Mine(t), h, ty, p, it.(left := left))
      ensures entry.None? <==> it.made != p.m.Keys || it.left == {}
      ensures entry.None? ==> left == it.left
      ensures entry.Some? ==> left <= it.left && |left| == |it.left| - 1
      ensures entry.Some? ==>
        && entry.value.0 !in MapOf(ty.key, ty.val, p.m, all - it.left)
        && MapOf(ty.key, ty.val, p.m, all - left)
             == MapOf(ty.key, ty.val, p.m, all - it.left)[entry.value.0 := entry.value.1]
      decreases ty, 1
    {
      var k := PythonNext(t, h, before, ty, p, it);
      if k.None? {
        return None, it.left;
      }
      var key, value := EntryToCpp(t, ty, h, k.value, Mine(t), p);
      left := it.left - {k.value};
      MapOneMore(ty.key, ty.val, p.m, all - it.left, k.value);
      assert all - left == all - it.left + {k.value};
      entry := Some((key, value));
    }

    method EntryToCpp(t: Tid, ty: Ty, h: Ptr, k: PyKey, ghost held: map<Ptr, Res>, ghost p: Py)
      returns (key: Key, value: Cpp)
      requires Valid() && ty.TMap? && PyFits(ty, p) && k in p.m
      requires Mine(t) == held && h in held && held[h].Handle? && held[h].val == p
      modifies this
      ensures Valid() && Mine(t) == held && Stray(t) == old(Stray(t))
      ensures key == KeyToCpp(k) && value == ToCpp(ty.val, p.m[k])
      decreases ty, 0
    {
      var keyWire := PyToWire(t, KeyType(ty.key), PythonKey(k));
      ghost var withKey := Mine(t);
      var pyKey := PeekKey(t, ty.key, keyWire, held, k);
      var proxy := Look(t, h);
      var valueWire := PyToWire(t, ty.val, proxy.val.m[pyKey]);
      value := WireToCpp(t, ty.val, valueWire, withKey, p.m[k]);
      key := KeyToCpp'(t, ty.key, keyWire, held, k);
    }

    /** Fetches all the fields first, then takes them over one by one. */
    method RecordToCpp(t: Tid, ty: Ty, h: Ptr, ghost before: map<Ptr, Res>, ghost p: Py) returns (v: Cpp)
      requires Valid() && ty.TRec? && PyFits(ty, p)
      requires h !in before && Mine(t) == before[h := Handle(ty, p, Iter(KeysOf(p), KeysOf(p)))]
      modifies this
      ensures Valid() && Mine(t) == before && Stray(t) == old(Stray(t)) && v == ToCpp(ty, p)
      decreases ty, 1
    {
      var ws := FetchFields(t, ty, h, Mine(t), p);
      var fs := FieldsToCpp(t, ty, ws, old(Mine(t)), p.fs, ToCpp(ty, p).fs);
      ghost var last := TakeHandle(t, ty, h, before);
      v := CRec(fs);
    }

    method FetchFields(t: Tid, ty: Ty, h: Ptr, ghost held: map<Ptr, Res>, ghost p: Py) returns (ws: seq<Wire>)
      requires Valid() && ty.TRec? && PyFits(ty, p)
      requires Mine(t) == held && h in held && held[h].Handle? && held[h].val == p
      modifies this
      ensures Valid() && |ws| == |ty.fields| && CarriesAll(held, Mine(t), Offers(ty.fields, p.fs), ws)
      ensures Stray(t) == old(Stray(t))
    {
      ghost var parcels := Offers(ty.fields, p.fs);
      var n := |ty.fields|;
      ws := [];
      var i := 0;
      while i < n
        invariant 0 <= i == |ws| <= n && Valid() && Stray(t) == old(Stray(t))
        invariant CarriesAll(held, Mine(t), parcels[..i], ws)
      {
        ghost var mine := Mine(t);
        KeptWhileCarrying(held, mine, parcels[..i], ws, h);
        var record := Look(t, h);
        var w := PyToWire(t, ty.fields[i], record.val.fs[i]);
        CarriesNext(held, mine, parcels, ws, Mine(t), w);
        ws := ws + [w];
        i := i + 1;
      }
      assert parcels[..n] == parcels;
    }

    method FieldsToCpp(t: Tid, ty: Ty, ws: seq<Wire>, ghost held: map<Ptr, Res>, ghost ps: seq<Py>, ghost all: seq<Cpp>)
      returns (fs: seq<Cpp>)
      requires Valid() && ty.TRec? && |ws| == |ty.fields| == |ps| == |all|
      requires forall i :: 0 <= i < |ps| ==> PyFits(ty.fields[i], ps[i]) && all[i] == ToCpp(ty.fields[i], ps[i])
      requires CarriesAll(held, Mine(t), Offers(ty.fields, ps), ws)
      modifies this
      ensures Valid() && Mine(t) == held && Stray(t) == old(Stray(t)) && fs == all
      decreases ty, 0
    {
      ghost var parcels := Offers(ty.fields, ps);
      fs := [];
      var i := 0;
      while i < |ws|
        invariant 0 <= i <= |ws| && Valid() && Stray(t) == old(Stray(t)) && fs == all[..i]
        invariant CarriesAll(held, Mine(t), parcels[i..], ws[i..])
      {
        CarriesFirst(held, Mine(t), parcels, ws, i);
        var f := WireToCpp(t, ty.fields[i], ws[i], Drop(Mine(t), ws[i]), ps[i]);
        fs := fs + [f];
        i := i + 1;
      }
    }

    // ---------------------------------------------------------------------------------------------
    // Whole crossings
    // ---------------------------------------------------------------------------------------------

    /** A value goes from C++ to Python. Whatever the other threads do meanwhile, this thread owns afterwards what it
        owned before, and what it has left behind is exactly `Left`. */
    method CppToPy(t: Tid, ty: Ty, v: Cpp) returns (p: Option<Py>)
      requires Valid() && Fits(ty, v)
      modifies this
      ensures Valid() && p == Arrives(ty, v)
      ensures Mine(t) == old(Mine(t)) && Grown(old(Stray(t)), Stray(t), Left(ty, v))
    {
      var w := CppToWire(t, ty, v);
      p := WireToPy(t, ty, w, old(Mine(t)), v);
    }

    /** A value goes from Python to C++. */
    method PyToCpp(t: Tid, ty: Ty, p: Py) returns (v: Cpp)
      requires Valid() && PyFits(ty, p)
      modifies this
      ensures Valid() && Mine(t) == old(Mine(t)) && Stray(t) == old(Stray(t)) && v == ToCpp(ty, p)
    {
      var w := PyToWire(t, ty, p);
      v := WireToCpp(t, ty, w, old(Mine(t)), p);
    }

    /** A C++ value that Python takes over and hands back through a new handle: it is the same exactly when all its
        strings are well-formed UTF-8, and nothing is left behind exactly when it is `Kept`. */
    method ThereAndBack(t: Tid, ty: Ty, v: Cpp) returns (r: Option<Cpp>)
      requires Valid() && Fits(ty, v)
      modifies this
      ensures Valid() && Mine(t) == old(Mine(t))
      ensures r == Some(v) <==> Decodable(ty, v)
      ensures Stray(t) == old(Stray(t)) <==> Kept(ty, v)
    {
      var p := CppToPy(t, ty, v);
      IntactIff(ty, v);
      NothingLeftIff(ty, v);
      GrownIff(old(Stray(t)), Stray(t), Left(ty, v));
      if p.None? {
        return None;
      }
      var x := PyToCpp(t, ty, p.value);
      r := Some(x);
    }

    lemma GrownIff(a: map<Ptr, Res>, b: map<Ptr, Res>, bag: multiset<Res>)
      requires Grown(a, b, bag)
      ensures b == a <==> bag == multiset{}
    {
      if bag != multiset{} {
        var p :| GrownLast(a, b, bag, p);
      }
    }

    /** The data sets are empty exactly when no thread has a handle, or has left one behind. */
    lemma DataSetsEmptyIff()
      requires Valid()
      ensures (forall ty: Ty, p: Ptr :: Count(sets, ty, p) == 0)
         <==> forall t: Tid, p: Ptr ::
                && (p in Mine(t) ==> !Mine(t)[p].Handle?)
                && (p in Stray(t) ==> !Stray(t)[p].Handle?)
    {
      if exists ty: Ty, p: Ptr :: Count(sets, ty, p) != 0 {
        var ty: Ty, p: Ptr :| Count(sets, ty, p) != 0;
        assert owner[p].Thread? ==> p in Mine(owner[p].t);
        assert owner[p].Lost? ==> p in Stray(owner[p].t);
      } else {
        forall p: Ptr | p in live
          ensures !live[p].Handle?
        {
          OneIfHandle(p);
        }
      }
    }

    lemma OneIfHandle(p: Ptr)
      requires Valid() && p in live
      ensures live[p].Handle? ==> Count(sets, live[p].ty, p) == 1
    {
    }
  }
}

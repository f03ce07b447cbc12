/**
  Objects crossing between C++ and Java over the two proxy caches: `cpp` maps C++ objects to their Java-side
  proxies (class CppProxy), `java` maps Java objects to their C++-side proxies (class JavaProxy). A Java-side
  proxy is itself a Java object and a C++-side proxy is itself a C++ object, so each could in principle be
  wrapped again; the guards of the two conversions are what prevents it.
 */
module JniInterface {
  import opened Options
  import opened ProxyCache
  import opened ProxyProgress

  /** The implementation objects of `cpp` are the C++ objects, those of `java` the Java objects. */
  datatype World = World(cpp: State, java: State)
  {
    /** The C++ object is of class JavaProxy (what `dynamic_cast` finds out). */
    predicate IsJavaProxy(c: ObjId) { c in java.store.proxies }

    /** The Java object is of class CppProxy. */
    predicate IsCppProxy(j: ObjId) { j in cpp.store.proxies }
  }

  const START := World(INIT, INIT)

  /** What a conversion does first: the null case, the proxy that is unwrapped, or the cache that is asked. */
  datatype Crossing = Null | Unwrapped(obj: ObjId) | Ask(obj: ObjId)

  function ToJava(w: World, c: Option<ObjId>): Crossing
  {
    if c.None? then Null
    else if w.IsJavaProxy(c.value) then Unwrapped(w.java.store.proxies[c.value].impl)
    else Ask(c.value)
  }

  function FromJava(w: World, j: Option<ObjId>): Crossing
  {
    if j.None? then Null
    else if w.IsCppProxy(j.value) then Unwrapped(w.cpp.store.proxies[j.value].impl)
    else Ask(j.value)
  }

  // ---------------------------------------------------------------------------------------------
  // Steps of the two caches together
  // ---------------------------------------------------------------------------------------------

  /** `addr` is the address of the object that an allocating step creates on the other side. */
  datatype Move = Cpp(l: Label, addr: Addr) | Java(l: Label, addr: Addr)

  /** A cache may make a step beside the other one. The memory of a proxy is released only after its destructor, and a
      new proxy is a new object of the other language. */
  predicate Allowed(mine: State, other: State, l: Label, addr: Addr)
  {
    && Enabled(mine, l)
    && (l.FreeObject? ==> l.o in other.store.proxies ==> other.store.proxies[l.o].status == Destroyed)
    && (l.Alloc? ==> Enabled(other, NewObject(l.p, addr)))
  }

  /** A lookup starts only when the conversion of the object asks for it. */
  predicate CanMove(w: World, m: Move)
  {
    match m
    case Cpp(l, addr) => Allowed(w.cpp, w.java, l, addr) && (l.CallGet? ==> ToJava(w, Some(l.impl)) == Ask(l.impl))
    case Java(l, addr) => Allowed(w.java, w.cpp, l, addr) && (l.CallGet? ==> FromJava(w, Some(l.impl)) == Ask(l.impl))
  }

  function Do(w: World, m: Move): World
    requires CanMove(w, m)
  {
    match m
    case Cpp(l, addr) => World(Apply(w.cpp, l), if l.Alloc? then Apply(w.java, NewObject(l.p, addr)) else w.java)
    case Java(l, addr) => World(if l.Alloc? then Apply(w.cpp, NewObject(l.p, addr)) else w.cpp, Apply(w.java, l))
  }

  /** What a cache can do alone it can do beside the other one, too; an object can go if it is no proxy, or one that is
      destroyed. */
  lemma CacheStepsAreMoves(w: World, l: Label, addr: Addr)
    requires !l.CallGet? && !l.Alloc?
    requires l.FreeObject? ==> forall other :: other in {w.cpp, w.java} && l.o in other.store.proxies ==>
      other.store.Is(l.o, Destroyed)
    ensures Enabled(w.cpp, l) ==> CanMove(w, Cpp(l, addr))
    ensures Enabled(w.java, l) ==> CanMove(w, Java(l, addr))
  {
  }

  // ---------------------------------------------------------------------------------------------
  // No proxy of a proxy
  // ---------------------------------------------------------------------------------------------

  /** The proxies that `mine` creates are objects of the other language, and neither a proxy of `mine` nor a
      `get` under way is for an object that is itself a proxy. */
  ghost predicate Separate(mine: State, other: State)
  {
    && (forall p :: p in mine.store.proxies ==> p in other.store.objects)
    && (forall p :: p in mine.store.proxies ==> mine.store.proxies[p].impl !in other.store.proxies)
    && (forall t :: t in mine.threads && mine.threads[t].IsGet() ==> mine.threads[t].impl !in other.store.proxies)
  }

  ghost predicate WorldOk(w: World)
  {
    && Reachable(w.cpp) && Reachable(w.java)
    && Separate(w.cpp, w.java) && Separate(w.java, w.cpp)
  }

  /** A conversion unwraps exactly the proxies of the other cache, and asks for exactly the objects that are none. */
  lemma AsksIff(w: World, o: ObjId)
    ensures ToJava(w, Some(o)) == if o in w.java.store.proxies then Unwrapped(w.java.store.proxies[o].impl) else Ask(o)
    ensures FromJava(w, Some(o)) == if o in w.cpp.store.proxies then Unwrapped(w.cpp.store.proxies[o].impl) else Ask(o)
  {
  }

  lemma StepReachable(s: State, l: Label)
    requires Reachable(s) && Enabled(s, l)
    ensures Reachable(Apply(s, l))
  {
    assert [l][..0] == [];
    assert Exec(s, [l]) == Some(Apply(s, l));
    ReachableConcat(s, [l]);
  }

  /** What a step can change of what `Separate` talks about. */
  lemma StepShape(s: State, l: Label)
    requires Inv(s) && Enabled(s, l)
    ensures var s' := Apply(s, l);
            && s.store.objects.Keys <= s'.store.objects.Keys
            && (forall p :: p in s'.store.proxies ==>
                  if p in s.store.proxies then s'.store.proxies[p].impl == s.store.proxies[p].impl
                  else l.Alloc? && p == l.p && s.Pc(l.t).GetAlloc? && s'.store.proxies[p].impl == s.Pc(l.t).impl)
  {
  }

  lemma StepShapeOfGets(s: State, l: Label, t: Tid)
    requires Inv(s) && Enabled(s, l) && Apply(s, l).Pc(t).IsGet()
    ensures if l.CallGet? && l.t == t then Apply(s, l).Pc(t).impl == l.impl
            else s.Pc(t).IsGet() && Apply(s, l).Pc(t).impl == s.Pc(t).impl
  {
  }

  lemma SeparateWithout(mine: State, other: State, l: Label)
    requires Inv(mine) && Separate(mine, other) && Separate(other, mine) && Enabled(mine, l) && !l.Alloc?
    requires l.CallGet? ==> l.impl !in other.store.proxies
    ensures Separate(Apply(mine, l), other) && Separate(other, Apply(mine, l))
  {
    var mine' := Apply(mine, l);
    StepShape(mine, l);
    forall t | t in mine'.threads && mine'.threads[t].IsGet()
      ensures mine'.threads[t].impl !in other.store.proxies
    {
      StepShapeOfGets(mine, l, t);
      assert mine'.Pc(t) == mine'.threads[t];
    }
  }

  lemma SeparateWith(mine: State, other: State, l: Label, addr: Addr)
    requires Inv(mine) && Inv(other) && Separate(mine, other) && Separate(other, mine)
    requires Enabled(mine, l) && l.Alloc? && Enabled(other, NewObject(l.p, addr))
    ensures Separate(Apply(mine, l), Apply(other, NewObject(l.p, addr)))
    ensures Separate(Apply(other, NewObject(l.p, addr)), Apply(mine, l))
  {
    var mine', other' := Apply(mine, l), Apply(other, NewObject(l.p, addr));
    StepShape(mine, l);
    forall t | t in mine'.threads && mine'.threads[t].IsGet()
      ensures mine'.threads[t].impl !in other'.store.proxies
    {
      StepShapeOfGets(mine, l, t);
      assert mine'.Pc(t) == mine'.threads[t];
    }
  }

  /** Every move of either cache keeps both invariants and the separation. */
  lemma WorldOkAfter(w: World, m: Move)
    requires WorldOk(w) && CanMove(w, m)
    ensures WorldOk(Do(w, m))
  {
    ReachableInv(w.cpp);
    ReachableInv(w.java);
    if m.l.CallGet? {
      AsksIff(w, m.l.impl);
    }
    match m
    case Cpp(l, addr) =>
      StepReachable(w.cpp, l);
      if l.Alloc? {
        StepReachable(w.java, NewObject(l.p, addr));
        SeparateWith(w.cpp, w.java, l, addr);
      } else {
        SeparateWithout(w.cpp, w.java, l);
      }
    case Java(l, addr) =>
      StepReachable(w.java, l);
      if l.Alloc? {
        StepReachable(w.cpp, NewObject(l.p, addr));
        SeparateWith(w.java, w.cpp, l, addr);
      } else {
        SeparateWithout(w.java, w.cpp, l);
      }
  }

  // ---------------------------------------------------------------------------------------------
  // Runs, and what they cannot change
  // ---------------------------------------------------------------------------------------------

  function Play(w: World, ms: seq<Move>): Option<World>
  {
    if ms == [] then Some(w) else
      match Play(w, ms[..|ms| - 1])
      case Some(w') => if CanMove(w', ms[|ms| - 1]) then Some(Do(w', ms[|ms| - 1])) else None
      case None => None
  }

  /** A proxy stands for the same object forever, and an object that is no proxy never becomes one. */
  ghost predicate Persists(mine: State, other: State, mine': State, other': State)
  {
    && mine.store.objects.Keys <= mine'.store.objects.Keys
    && (forall p :: p in mine.store.proxies ==>
          && p in mine'.store.proxies
          && mine'.store.proxies[p].impl == mine.store.proxies[p].impl
          && mine'.store.proxies[p].tag == mine.store.proxies[p].tag)
    && (forall p :: p in mine'.store.proxies && p !in mine.store.proxies ==> p !in other.store.objects)
  }

  lemma PersistsStep(mine: State, other: State, l: Label, addr: Addr)
    requires Enabled(mine, l) && (l.Alloc? ==> Enabled(other, NewObject(l.p, addr)))
    ensures var other' := if l.Alloc? then Apply(other, NewObject(l.p, addr)) else other;
            Persists(mine, other, Apply(mine, l), other') && Persists(other, mine, other', Apply(mine, l))
  {
    forall p | p in mine.store.proxies
      ensures p in Apply(mine, l).store.proxies
      ensures Apply(mine, l).store.proxies[p].impl == mine.store.proxies[p].impl
      ensures Apply(mine, l).store.proxies[p].tag == mine.store.proxies[p].tag
    {
      ProxyKeepsItsObject(mine, l, p);
    }
  }

  lemma {:induction false} PlayOk(w: World, ms: seq<Move>)
    requires WorldOk(w) && Play(w, ms).Some?
    ensures var w' := Play(w, ms).value;
            WorldOk(w') && Persists(w.cpp, w.java, w'.cpp, w'.java) && Persists(w.java, w.cpp, w'.java, w'.cpp)
  {
    if ms != [] {
      var m, mid := ms[|ms| - 1], Play(w, ms[..|ms| - 1]).value;
      PlayOk(w, ms[..|ms| - 1]);
      WorldOkAfter(mid, m);
      match m
      case Cpp(l, addr) => PersistsStep(mid.cpp, mid.java, l, addr);
      case Java(l, addr) => PersistsStep(mid.java, mid.cpp, l, addr);
    }
  }

  /** All worlds that runs can lead to are in order. */
  lemma RunsAreOk(ms: seq<Move>)
    requires Play(START, ms).Some?
    ensures WorldOk(Play(START, ms).value)
  {
    assert Exec(INIT, []) == Some(INIT);
    PlayOk(START, ms);
  }

  /** After any run, no Java-side proxy stands for a C++-side proxy, and no C++-side proxy for a Java-side one. */
  lemma NoProxyOfProxy(ms: seq<Move>, p: ProxyId)
    requires Play(START, ms).Some?
    ensures var w := Play(START, ms).value;
            && (w.IsCppProxy(p) ==> !w.IsJavaProxy(w.cpp.store.proxies[p].impl))
            && (w.IsJavaProxy(p) ==> !w.IsCppProxy(w.java.store.proxies[p].impl))
  {
    RunsAreOk(ms);
  }

  // ---------------------------------------------------------------------------------------------
  // Identity across the boundary
  // ---------------------------------------------------------------------------------------------

  /** Thread `t` has the result `j` of converting the C++ object `c` of the interface `tag`. */
  ghost predicate ToJavaGives(w: World, t: Tid, tag: Tag, c: Option<ObjId>, j: Option<ObjId>)
  {
    match ToJava(w, c)
    case Null => j.None?
    case Unwrapped(o) => j == Some(o)
    case Ask(o) => j.Some? && w.cpp.Pc(t) == GetReturn(tag, o, j.value)
  }

  ghost predicate FromJavaGives(w: World, t: Tid, tag: Tag, j: Option<ObjId>, c: Option<ObjId>)
  {
    match FromJava(w, j)
    case Null => c.None?
    case Unwrapped(o) => c == Some(o)
    case Ask(o) => c.Some? && w.java.Pc(t) == GetReturn(tag, o, c.value)
  }

  /** The object is held by the program: if it is a proxy, it is a live one of the interface. */
  ghost predicate HeldCpp(w: World, tag: Tag, c: Option<ObjId>)
  {
    c.Some? && w.IsJavaProxy(c.value) ==> w.java.store.Is(c.value, Live) && w.java.store.proxies[c.value].tag == tag
  }

  ghost predicate HeldJava(w: World, tag: Tag, j: Option<ObjId>)
  {
    j.Some? && w.IsCppProxy(j.value) ==> w.cpp.store.Is(j.value, Live) && w.cpp.store.proxies[j.value].tag == tag
  }

  lemma AskedIsKnown(s: State, t: Tid)
    requires Reachable(s) && s.Pc(t).GetReturn?
    ensures s.Pc(t).impl in s.store.objects
    ensures s.store.Is(s.Pc(t).p, Live)
    ensures s.store.proxies[s.Pc(t).p].tag == s.Pc(t).tag && s.store.proxies[s.Pc(t).p].impl == s.Pc(t).impl
  {
    ReachableInv(s);
  }

  lemma ImplIsKnown(s: State, p: ProxyId)
    requires Reachable(s) && p in s.store.proxies
    ensures s.store.proxies[p].impl in s.store.objects
  {
    ReachableInv(s);
  }

  /** A C++ object that went to Java and comes back, whatever ran in between, is the same object. */
  lemma CppRoundTrip(w: World, ms: seq<Move>, tag: Tag, t: Tid, c: Option<ObjId>, j: Option<ObjId>, t': Tid,
                     c': Option<ObjId>)
    requires WorldOk(w) && ToJavaGives(w, t, tag, c, j) && Play(w, ms).Some?
    requires FromJavaGives(Play(w, ms).value, t', tag, j, c') && HeldCpp(Play(w, ms).value, tag, c)
    ensures c' == c
  {
    var w' := Play(w, ms).value;
    PlayOk(w, ms);
    match ToJava(w, c)
    case Null =>
    case Ask(o) =>
      AskedIsKnown(w.cpp, t);
    case Unwrapped(o) =>
      ImplIsKnown(w.java, c.value);
      AskedIsKnown(w'.java, t');
      LiveProxyIsUnique(w'.java, c.value, c'.value);
  }

  /** A Java object that went to C++ and comes back, whatever ran in between, is the same object. */
  lemma JavaRoundTrip(w: World, ms: seq<Move>, tag: Tag, t: Tid, j: Option<ObjId>, c: Option<ObjId>, t': Tid,
                      j': Option<ObjId>)
    requires WorldOk(w) && FromJavaGives(w, t, tag, j, c) && Play(w, ms).Some?
    requires ToJavaGives(Play(w, ms).value, t', tag, c, j') && HeldJava(Play(w, ms).value, tag, j)
    ensures j' == j
  {
    var w' := Play(w, ms).value;
    PlayOk(w, ms);
    match FromJava(w, j)
    case Null =>
    case Ask(o) =>
      AskedIsKnown(w.java, t);
    case Unwrapped(o) =>
      ImplIsKnown(w.cpp, j.value);
      AskedIsKnown(w'.cpp, t');
      LiveProxyIsUnique(w'.cpp, j.value, j'.value);
  }

  // ---------------------------------------------------------------------------------------------
  // Every conversion has an answer
  // ---------------------------------------------------------------------------------------------

  function CppMoves(ls: seq<Label>, addr: Addr): seq<Move>
  {
    if ls == [] then [] else CppMoves(ls[..|ls| - 1], addr) + [Cpp(ls[|ls| - 1], addr)]
  }

  function JavaMoves(ls: seq<Label>, addr: Addr): seq<Move>
  {
    if ls == [] then [] else JavaMoves(ls[..|ls| - 1], addr) + [Java(ls[|ls| - 1], addr)]
  }

  /** The other side, which has got the new proxy `p` as an object if `mine` has allocated it. */
  function Other(mine: State, other: State, p: ProxyId, addr: Addr): State
    requires Enabled(other, NewObject(p, addr))
  {
    if p in mine.store.proxies then Apply(other, NewObject(p, addr)) else other
  }

  lemma KeepsProxies(s: State, l: Label)
    requires Enabled(s, l) && !l.Alloc?
    ensures Apply(s, l).store.proxies.Keys == s.store.proxies.Keys
  {
  }

  lemma StepBesides(mine: State, other: State, l: Label, t: Tid, tag: Tag, o: ObjId, p: ProxyId, addr: Addr)
    requires Enabled(mine, l) && OfGet(l, t, tag, o, p) && Enabled(other, NewObject(p, addr))
    ensures var beside := Other(mine, other, p, addr);
            && Allowed(mine, beside, l, addr) && beside.store.proxies == other.store.proxies
            && Other(Apply(mine, l), other, p, addr) == if l.Alloc? then Apply(beside, NewObject(l.p, addr)) else beside
  {
    if !l.Alloc? { KeepsProxies(mine, l); }
  }

  lemma PlayOneMore(w: World, ms: seq<Move>, w': World, m: Move)
    requires Play(w, ms) == Some(w') && CanMove(w', m)
    ensures Play(w, ms + [m]) == Some(Do(w', m))
  {
    assert (ms + [m])[..|ms|] == ms;
  }

  lemma NextOfCppGet(w: World, ms: seq<Move>, mid: State, l: Label, t: Tid, tag: Tag, o: ObjId, p: ProxyId, addr: Addr)
    requires Enabled(w.java, NewObject(p, addr)) && ToJava(w, Some(o)) == Ask(o)
    requires Play(w, ms) == Some(World(mid, Other(mid, w.java, p, addr))) && Enabled(mid, l) && OfGet(l, t, tag, o, p)
    ensures Play(w, ms + [Cpp(l, addr)]) == Some(World(Apply(mid, l), Other(Apply(mid, l), w.java, p, addr)))
  {
    var w' := World(mid, Other(mid, w.java, p, addr));
    AsksIff(w, o);
    AsksIff(w', o);
    StepBesides(mid, w.java, l, t, tag, o, p, addr);
    PlayOneMore(w, ms, w', Cpp(l, addr));
  }

  lemma NextOfJavaGet(w: World, ms: seq<Move>, mid: State, l: Label, t: Tid, tag: Tag, o: ObjId, p: ProxyId, addr: Addr)
    requires Enabled(w.cpp, NewObject(p, addr)) && FromJava(w, Some(o)) == Ask(o)
    requires Play(w, ms) == Some(World(Other(mid, w.cpp, p, addr), mid)) && Enabled(mid, l) && OfGet(l, t, tag, o, p)
    ensures Play(w, ms + [Java(l, addr)]) == Some(World(Other(Apply(mid, l), w.cpp, p, addr), Apply(mid, l)))
  {
    var w' := World(Other(mid, w.cpp, p, addr), mid);
    AsksIff(w, o);
    AsksIff(w', o);
    StepBesides(mid, w.cpp, l, t, tag, o, p, addr);
    PlayOneMore(w, ms, w', Java(l, addr));
  }

  ghost predicate AllOfGet(ls: seq<Label>, t: Tid, tag: Tag, o: ObjId, p: ProxyId)
  {
    forall i :: 0 <= i < |ls| ==> OfGet(ls[i], t, tag, o, p)
  }

  lemma ExecBefore(s: State, ls: seq<Label>, s': State) returns (mid: State)
    requires Exec(s, ls) == Some(s') && ls != []
    ensures Exec(s, ls[..|ls| - 1]) == Some(mid) && Enabled(mid, ls[|ls| - 1]) && s' == Apply(mid, ls[|ls| - 1])
  {
    mid := Exec(s, ls[..|ls| - 1]).value;
  }

  /** A `get` of one cache is a run of both, if the conversion asks for it. */
  lemma {:induction false} PlayCppGet(w: World, ls: seq<Label>, s: State, t: Tid, tag: Tag, o: ObjId, p: ProxyId,
                                      addr: Addr)
    requires Exec(w.cpp, ls) == Some(s) && AllOfGet(ls, t, tag, o, p) && p !in w.cpp.store.proxies
    requires Enabled(w.java, NewObject(p, addr)) && ToJava(w, Some(o)) == Ask(o)
    ensures Play(w, CppMoves(ls, addr)) == Some(World(s, Other(s, w.java, p, addr)))
    decreases |ls|
  {
    if ls != [] {
      var before, l := ls[..|ls| - 1], ls[|ls| - 1];
      var mid := ExecBefore(w.cpp, ls, s);
      PlayCppGet(w, before, mid, t, tag, o, p, addr);
      NextOfCppGet(w, CppMoves(before, addr), mid, l, t, tag, o, p, addr);
    }
  }

  lemma {:induction false} PlayJavaGet(w: World, ls: seq<Label>, s: State, t: Tid, tag: Tag, o: ObjId, p: ProxyId,
                                       addr: Addr)
    requires Exec(w.java, ls) == Some(s) && AllOfGet(ls, t, tag, o, p) && p !in w.java.store.proxies
    requires Enabled(w.cpp, NewObject(p, addr)) && FromJava(w, Some(o)) == Ask(o)
    ensures Play(w, JavaMoves(ls, addr)) == Some(World(Other(s, w.cpp, p, addr), s))
    decreases |ls|
  {
    if ls != [] {
      var before, l := ls[..|ls| - 1], ls[|ls| - 1];
      var mid := ExecBefore(w.java, ls, s);
      PlayJavaGet(w, before, mid, t, tag, o, p, addr);
      NextOfJavaGet(w, JavaMoves(before, addr), mid, l, t, tag, o, p, addr);
    }
  }

  /** There is always memory for another object. */
  lemma Fresh(used: set<nat>) returns (n: nat)
    ensures n !in used
  {
    n := Above(used);
  }

  ghost function Above(used: set<nat>): (n: nat)
    ensures forall u :: u in used ==> u < n
  {
    if used == {} then 0 else
    var u :| u in used;
    var n := Above(used - {u});
    assert forall v :: v in used ==> v == u || v in used - {u};
    if u < n then n else u + 1
  }

  lemma FreshObject(mine: State, other: State) returns (p: ProxyId, addr: Addr)
    ensures p !in mine.store.proxies && Enabled(other, NewObject(p, addr))
  {
    p := Fresh(mine.store.proxies.Keys + other.store.objects.Keys);
    addr := Fresh(set o | o in other.store.objects :: other.store.objects[o].addr);
  }

  ghost predicate KeepsThem(s: State, s': State)
  {
    forall q: ProxyId :: q in s.store.proxies ==> q in s'.store.proxies && s'.store.proxies[q] == s.store.proxies[q]
  }

  /** A C++ object that the program holds can be converted: at once, or by a run of the cache that is asked. */
  lemma ToJavaAnswers(w: World, t: Tid, tag: Tag, c: Option<ObjId>) returns (ms: seq<Move>, j: Option<ObjId>)
    requires WorldOk(w) && (c.Some? && !w.IsJavaProxy(c.value) ==> w.cpp.store.Alive(c.value))
    requires w.cpp.lock.None? && w.cpp.Pc(t).Idle?
    ensures Play(w, ms).Some? && ToJavaGives(Play(w, ms).value, t, tag, c, j) && (c.Some? ==> j.Some?)
    ensures KeepsThem(w.cpp, Play(w, ms).value.cpp)
  {
    if c.None? {
      return [], None;
    }
    AsksIff(w, c.value);
    if w.IsJavaProxy(c.value) {
      return [], Some(w.java.store.proxies[c.value].impl);
    }
    var p, addr := FreshObject(w.cpp, w.java);
    ReachableInv(w.cpp);
    var ls, s := GetReturns(w.cpp, t, tag, c.value, p);
    PlayCppGet(w, ls, s, t, tag, c.value, p, addr);
    ms, j := CppMoves(ls, addr), Some(s.Pc(t).p);
    AsksIff(Play(w, ms).value, c.value);
    GetsKeepProxies(w.cpp, ls, s, t, tag, c.value, p);
  }

  lemma FromJavaAnswers(w: World, t: Tid, tag: Tag, j: Option<ObjId>) returns (ms: seq<Move>, c: Option<ObjId>)
    requires WorldOk(w) && (j.Some? && !w.IsCppProxy(j.value) ==> w.java.store.Alive(j.value))
    requires w.java.lock.None? && w.java.Pc(t).Idle?
    ensures Play(w, ms).Some? && FromJavaGives(Play(w, ms).value, t, tag, j, c) && (j.Some? ==> c.Some?)
    ensures KeepsThem(w.java, Play(w, ms).value.java)
  {
    if j.None? {
      return [], None;
    }
    AsksIff(w, j.value);
    if w.IsCppProxy(j.value) {
      return [], Some(w.cpp.store.proxies[j.value].impl);
    }
    var p, addr := FreshObject(w.java, w.cpp);
    ReachableInv(w.java);
    var ls, s := GetReturns(w.java, t, tag, j.value, p);
    PlayJavaGet(w, ls, s, t, tag, j.value, p, addr);
    ms, c := JavaMoves(ls, addr), Some(s.Pc(t).p);
    AsksIff(Play(w, ms).value, j.value);
    GetsKeepProxies(w.java, ls, s, t, tag, j.value, p);
  }

  /** So there are round trips: a C++ object that has gone to Java can come back, and comes back as itself. */
  lemma CppComesBack(w: World, tag: Tag, t: Tid, c: Option<ObjId>, j: Option<ObjId>, t': Tid) returns (ms: seq<Move>)
    requires WorldOk(w) && ToJavaGives(w, t, tag, c, j) && HeldCpp(w, tag, c)
    requires w.java.lock.None? && w.java.Pc(t').Idle?
    ensures Play(w, ms).Some? && FromJavaGives(Play(w, ms).value, t', tag, j, c)
  {
    ReachableInv(w.cpp);
    ReachableInv(w.java);
    if c.Some? {
      AsksIff(w, c.value);
      if !w.IsJavaProxy(c.value) {
        AskedIsKnown(w.cpp, t);
      }
    }
    var c';
    ms, c' := FromJavaAnswers(w, t', tag, j);
    PlayOk(w, ms);
    CppRoundTrip(w, ms, tag, t, c, j, t', c');
  }

  lemma JavaComesBack(w: World, tag: Tag, t: Tid, j: Option<ObjId>, c: Option<ObjId>, t': Tid) returns (ms: seq<Move>)
    requires WorldOk(w) && FromJavaGives(w, t, tag, j, c) && HeldJava(w, tag, j)
    requires w.cpp.lock.None? && w.cpp.Pc(t').Idle?
    ensures Play(w, ms).Some? && ToJavaGives(Play(w, ms).value, t', tag, c, j)
  {
    ReachableInv(w.cpp);
    ReachableInv(w.java);
    if j.Some? {
      AsksIff(w, j.value);
      if !w.IsCppProxy(j.value) {
        AskedIsKnown(w.java, t);
      }
    }
    var j';
    ms, j' := ToJavaAnswers(w, t', tag, c);
    PlayOk(w, ms);
    JavaRoundTrip(w, ms, tag, t, j, c, t', j');
  }
}

/**
  What can always happen: a `get` can run to its end, a proxy that nobody holds can expire, the destruction of its
  handle can run to its end and leaves nothing of it in the map, and then its object can go and its address be used
  again. The threads involved take these steps alone.
 */
module ProxyProgress {
  import opened Options
  import opened ProxyCache
  import opened ProxySpec

  /** The steps `ls`, all of them made by thread `t`, lead from `s` to `s'`. */
  ghost predicate Leads(s: State, ls: seq<Label>, s': State, t: Tid)
  {
    Exec(s, ls) == Some(s') && Inv(s') && forall i :: 0 <= i < |ls| ==> By(ls[i]) == Some(t)
  }

  lemma Extend(s0: State, ls: seq<Label>, s: State, t: Tid, l: Label)
    requires Leads(s0, ls, s, t) && Enabled(s, l) && By(l) == Some(t)
    ensures Leads(s0, ls + [l], Apply(s, l), t)
  {
    assert (ls + [l])[..|ls|] == ls;
    InvStep(s, l);
  }

  // ---------------------------------------------------------------------------------------------
  // get
  // ---------------------------------------------------------------------------------------------

  /** A step that `t` makes in a `get` for the object, in which any proxy it allocates is `p`. */
  predicate OfGet(l: Label, t: Tid, tag: Tag, o: ObjId, p: ProxyId)
  {
    && By(l) == Some(t) && !l.DropImpl?
    && (l.CallGet? ==> l.tag == tag && l.impl == o)
    && (l.Alloc? ==> l.p == p)
  }

  ghost predicate Gets(s: State, ls: seq<Label>, s': State, t: Tid, tag: Tag, o: ObjId, p: ProxyId)
  {
    Exec(s, ls) == Some(s') && Inv(s') && forall i :: 0 <= i < |ls| ==> OfGet(ls[i], t, tag, o, p)
  }

  lemma ExtendGet(s0: State, ls: seq<Label>, s: State, t: Tid, tag: Tag, o: ObjId, p: ProxyId, l: Label)
    requires Gets(s0, ls, s, t, tag, o, p) && Enabled(s, l) && OfGet(l, t, tag, o, p)
    ensures Gets(s0, ls + [l], Apply(s, l), t, tag, o, p)
  {
    assert (ls + [l])[..|ls|] == ls;
    InvStep(s, l);
  }

  lemma AllocToReturn(s0: State, ls: seq<Label>, s: State, t: Tid, tag: Tag, o: ObjId, p: ProxyId)
    returns (ls': seq<Label>, s': State)
    requires Gets(s0, ls, s, t, tag, o, p) && s.Pc(t) == GetAlloc(tag, o) && p !in s.store.proxies
    ensures Gets(s0, ls', s', t, tag, o, p) && s'.Pc(t) == GetReturn(tag, o, p)
  {
    var s1 := Apply(s, Alloc(t, p));
    ExtendGet(s0, ls, s, t, tag, o, p, Alloc(t, p));
    assert PcOk(s1.store, s1.Pc(t));
    ls', s' := ls + [Alloc(t, p)] + [Emplace(t)], Apply(s1, Emplace(t));
    ExtendGet(s0, ls + [Alloc(t, p)], s1, t, tag, o, p, Emplace(t));
  }

  lemma PruneToReturn(s0: State, ls: seq<Label>, s: State, t: Tid, tag: Tag, o: ObjId, entry: ProxyId, p: ProxyId)
    returns (ls': seq<Label>, s': State)
    requires Gets(s0, ls, s, t, tag, o, p) && s.Pc(t) == GetPrune(tag, o, entry) && p !in s.store.proxies
    ensures Gets(s0, ls', s', t, tag, o, p) && s'.Pc(t) == GetReturn(tag, o, p)
  {
    assert PcOk(s.store, s.Pc(t));
    ExtendGet(s0, ls, s, t, tag, o, p, Prune(t));
    ls', s' := AllocToReturn(s0, ls + [Prune(t)], Apply(s, Prune(t)), t, tag, o, p);
  }

  predicate Returning(pc: Pc, tag: Tag, o: ObjId) { pc.GetReturn? && pc.tag == tag && pc.impl == o }

  lemma FoundToReturn(s0: State, ls: seq<Label>, s: State, t: Tid, tag: Tag, o: ObjId, entry: ProxyId, p: ProxyId)
    returns (ls': seq<Label>, s': State)
    requires Gets(s0, ls, s, t, tag, o, p) && s.Pc(t) == GetFound(tag, o, entry) && p !in s.store.proxies
    ensures Gets(s0, ls', s', t, tag, o, p) && Returning(s'.Pc(t), tag, o)
  {
    ls', s' := ls + [Upgrade(t)], Apply(s, Upgrade(t));
    ExtendGet(s0, ls, s, t, tag, o, p, Upgrade(t));
    if s'.Pc(t).GetPrune? {
      ls', s' := PruneToReturn(s0, ls', s', t, tag, o, entry, p);
    }
  }

  lemma LockedToReturn(s0: State, ls: seq<Label>, s: State, t: Tid, tag: Tag, o: ObjId, p: ProxyId)
    returns (ls': seq<Label>, s': State)
    requires Gets(s0, ls, s, t, tag, o, p) && s.Pc(t) == GetLocked(tag, o) && p !in s.store.proxies
    ensures Gets(s0, ls', s', t, tag, o, p) && Returning(s'.Pc(t), tag, o)
  {
    assert PcOk(s.store, s.Pc(t));
    ExtendGet(s0, ls, s, t, tag, o, p, Find(t));
    ls', s' := ls + [Find(t)], Apply(s, Find(t));
    if s'.Pc(t).GetFound? {
      ls', s' := FoundToReturn(s0, ls', s', t, tag, o, s'.Pc(t).entry, p);
    } else {
      ls', s' := AllocToReturn(s0, ls', s', t, tag, o, p);
    }
  }

  lemma CallToLocked(s: State, t: Tid, tag: Tag, o: ObjId, p: ProxyId) returns (ls: seq<Label>, s': State)
    requires Inv(s) && s.lock.None? && s.Pc(t).Idle? && s.store.Alive(o)
    ensures Gets(s, ls, s', t, tag, o, p) && s'.Pc(t) == GetLocked(tag, o) && s'.store == s.store
  {
    var call, lock := CallGet(t, tag, o), Label.LockGet(t);
    assert Gets(s, [], s, t, tag, o, p);
    ExtendGet(s, [], s, t, tag, o, p, call);
    var s1 := Apply(s, call);
    ExtendGet(s, [] + [call], s1, t, tag, o, p, lock);
    ls, s' := [] + [call] + [lock], Apply(s1, lock);
  }

  /** With the mutex free, `get` for a living object runs to its return, and after that to its end. */
  lemma GetReturns(s: State, t: Tid, tag: Tag, o: ObjId, p: ProxyId) returns (ls: seq<Label>, s': State)
    requires Reachable(s) && s.lock.None? && s.Pc(t).Idle? && s.store.Alive(o) && p !in s.store.proxies
    ensures Gets(s, ls, s', t, tag, o, p) && Returning(s'.Pc(t), tag, o)
    ensures Enabled(s', Return(t)) && Apply(s', Return(t)).Pc(t).Idle? && Apply(s', Return(t)).lock.None?
  {
    ReachableInv(s);
    ls, s' := CallToLocked(s, t, tag, o, p);
    ls, s' := LockedToReturn(s, ls, s', t, tag, o, p);
  }

  /** What a thread does in a `get` changes no proxy. */
  lemma {:induction false} GetsKeepProxies(s: State, ls: seq<Label>, s': State, t: Tid, tag: Tag, o: ObjId, p: ProxyId)
    requires Gets(s, ls, s', t, tag, o, p) && Inv(s)
    ensures forall q: ProxyId :: q in s.store.proxies ==>
      q in s'.store.proxies && s'.store.proxies[q] == s.store.proxies[q]
    decreases |ls|
  {
    if ls != [] {
      var mid := Exec(s, ls[..|ls| - 1]).value;
      InvRun(s, ls[..|ls| - 1]);
      GetsKeepProxies(s, ls[..|ls| - 1], mid, t, tag, o, p);
      assert OfGet(ls[|ls| - 1], t, tag, o, p);
      GetKeepsProxies(mid, ls[|ls| - 1], t, tag, o, p);
    }
  }

  lemma GetKeepsProxies(s: State, l: Label, t: Tid, tag: Tag, o: ObjId, p: ProxyId)
    requires Enabled(s, l) && OfGet(l, t, tag, o, p)
    ensures forall q: ProxyId :: q in s.store.proxies ==>
      q in Apply(s, l).store.proxies && Apply(s, l).store.proxies[q] == s.store.proxies[q]
  {
  }

  /** A new object can be asked for at once. */
  lemma NewObjectCanBeAskedFor(s: State, t: Tid, tag: Tag, o: ObjId, addr: Addr)
    requires Enabled(s, NewObject(o, addr)) && s.Pc(t).Idle?
    ensures Enabled(Apply(s, NewObject(o, addr)), CallGet(t, tag, o))
  {
  }

  // ---------------------------------------------------------------------------------------------
  // Expiry, ~Handle and remove
  // ---------------------------------------------------------------------------------------------

  /** A proxy to which no thread holds a reference can expire, and no other of its object then lives. */
  lemma CanExpire(s: State, p: ProxyId)
    requires Reachable(s) && s.store.Is(p, Live) && forall t :: t in s.threads ==> !s.threads[t].Holds(p)
    ensures Enabled(s, Expire(p)) && Apply(s, Expire(p)).store.Is(p, Expired)
    ensures forall q: ProxyId :: Apply(s, Expire(p)).store.Is(q, Live) ==> NameOf(s.store, q) != NameOf(s.store, p)
  {
    forall q: ProxyId | Apply(s, Expire(p)).store.Is(q, Live)
      ensures NameOf(s.store, q) != NameOf(s.store, p)
    {
      if NameOf(s.store, q) == NameOf(s.store, p) { LiveProxyIsUnique(s, p, q); }
    }
  }

  lemma UnlockToDone(s0: State, ls: seq<Label>, s: State, t: Tid, p: ProxyId) returns (ls': seq<Label>, s': State)
    requires Leads(s0, ls, s, t) && s.Pc(t) == RemoveUnlock(p)
    ensures Leads(s0, ls', s', t) && s'.Pc(t).Idle? && s'.lock.None? && s'.store.Is(p, Destroyed)
  {
    var s1 := Apply(s, UnlockRemove(t));
    Extend(s0, ls, s, t, UnlockRemove(t));
    assert PcOk(s1.store, s1.Pc(t));
    Extend(s0, ls + [UnlockRemove(t)], s1, t, DropImpl(t));
    ls', s' := ls + [UnlockRemove(t)] + [DropImpl(t)], Apply(s1, DropImpl(t));
  }

  lemma FoundToDone(s0: State, ls: seq<Label>, s: State, t: Tid, p: ProxyId, entry: ProxyId)
    returns (ls': seq<Label>, s': State)
    requires Leads(s0, ls, s, t) && s.Pc(t) == RemoveFound(p, entry)
    ensures Leads(s0, ls', s', t) && s'.Pc(t).Idle? && s'.lock.None? && s'.store.Is(p, Destroyed)
  {
    var s1 := Apply(s, CheckExpired(t));
    Extend(s0, ls, s, t, CheckExpired(t));
    if s1.Pc(t).RemoveUnlock? {
      ls', s' := UnlockToDone(s0, ls + [CheckExpired(t)], s1, t, p);
    } else {
      assert PcOk(s1.store, s1.Pc(t));
      Extend(s0, ls + [CheckExpired(t)], s1, t, Label.Erase(t));
      ls', s' := UnlockToDone(s0, ls + [CheckExpired(t)] + [Label.Erase(t)], Apply(s1, Label.Erase(t)), t, p);
    }
  }

  /** With the mutex free, the destruction of an expired proxy's handle runs to its end: the proxy is then destroyed,
      and no entry of the map leads to it. */
  lemma RemoveCompletes(s: State, t: Tid, p: ProxyId) returns (ls: seq<Label>, s': State)
    requires Reachable(s) && s.lock.None? && s.Pc(t).Idle? && s.store.Is(p, Expired)
    requires forall t' :: t' in s.threads ==> !s.threads[t'].Removes(p)
    ensures Leads(s, ls, s', t) && s'.Pc(t).Idle? && s'.lock.None? && s'.store.Is(p, Destroyed)
    ensures forall k :: k in s'.store.mapping ==> s'.store.mapping[k] != p
  {
    ReachableInv(s);
    assert Leads(s, [], s, t);
    var destroy, lock := Destroy(t, p), Label.LockRemove(t);
    var s1 := Apply(s, destroy);
    Extend(s, [], s, t, destroy);
    var s2 := Apply(s1, lock);
    Extend(s, [] + [destroy], s1, t, lock);
    assert PcOk(s2.store, s2.Pc(t));
    var s3 := Apply(s2, FindRemove(t));
    Extend(s, [] + [destroy] + [lock], s2, t, FindRemove(t));
    if s3.Pc(t).RemoveFound? {
      ls, s' := FoundToDone(s, [] + [destroy] + [lock] + [FindRemove(t)], s3, t, p, s3.Pc(t).entry);
    } else {
      ls, s' := UnlockToDone(s, [] + [destroy] + [lock] + [FindRemove(t)], s3, t, p);
    }
  }

  // ---------------------------------------------------------------------------------------------
  // The mutex
  // ---------------------------------------------------------------------------------------------

  lemma GetToReturn(s: State, t: Tid, p: ProxyId) returns (ls: seq<Label>, s': State)
    requires Inv(s) && s.Pc(t).IsGet() && s.Pc(t).InCritical() && p !in s.store.proxies
    ensures Leads(s, ls, s', t) && s'.Pc(t).GetReturn?
  {
    var tag, o := s.Pc(t).tag, s.Pc(t).impl;
    assert PcOk(s.store, s.Pc(t));
    assert Gets(s, [], s, t, tag, o, p);
    match s.Pc(t)
    case GetLocked(_, _) => ls, s' := LockedToReturn(s, [], s, t, tag, o, p);
    case GetFound(_, _, entry) => ls, s' := FoundToReturn(s, [], s, t, tag, o, entry, p);
    case GetPrune(_, _, entry) => ls, s' := PruneToReturn(s, [], s, t, tag, o, entry, p);
    case GetAlloc(_, _) => ls, s' := AllocToReturn(s, [], s, t, tag, o, p);
    case GetEmplace(_, _, q) =>
      ExtendGet(s, [], s, t, tag, o, p, Emplace(t));
      ls, s' := [] + [Emplace(t)], Apply(s, Emplace(t));
    case GetReturn(_, _, _) => ls, s' := [], s;
  }

  lemma RemoveToUnlock(s: State, t: Tid) returns (ls: seq<Label>, s': State)
    requires Inv(s) && s.Pc(t).IsRemove() && s.Pc(t).InCritical()
    ensures Leads(s, ls, s', t) && s'.lock.None?
  {
    var p := s.Pc(t).p;
    assert PcOk(s.store, s.Pc(t));
    assert Leads(s, [], s, t);
    match s.Pc(t)
    case RemoveLocked(_) =>
      Extend(s, [], s, t, FindRemove(t));
      ls, s' := [] + [FindRemove(t)], Apply(s, FindRemove(t));
      if s'.Pc(t).RemoveFound? {
        ls, s' := FoundToDone(s, ls, s', t, p, s'.Pc(t).entry);
      } else {
        ls, s' := UnlockToDone(s, ls, s', t, p);
      }
    case RemoveFound(_, entry) => ls, s' := FoundToDone(s, [], s, t, p, entry);
    case RemoveErase(_, _) =>
      Extend(s, [], s, t, Label.Erase(t));
      ls, s' := UnlockToDone(s, [] + [Label.Erase(t)], Apply(s, Label.Erase(t)), t, p);
    case RemoveUnlock(_) => ls, s' := UnlockToDone(s, [], s, t, p);
  }

  /** Whoever has the mutex can release it by its own steps. */
  lemma MutexIsReleased(s: State, p: ProxyId) returns (ls: seq<Label>, s': State)
    requires Reachable(s) && s.lock.Some? && p !in s.store.proxies
    ensures Leads(s, ls, s', s.lock.value) && s'.lock.None?
  {
    ReachableInv(s);
    var t := s.lock.value;
    if s.Pc(t).IsGet() {
      ls, s' := GetToReturn(s, t, p);
      Extend(s, ls, s', t, Return(t));
      ls, s' := ls + [Return(t)], Apply(s', Return(t));
    } else {
      ls, s' := RemoveToUnlock(s, t);
    }
  }

  // ---------------------------------------------------------------------------------------------
  // The object
  // ---------------------------------------------------------------------------------------------

  /** Exactly when an object can go: when all its proxies are destroyed and no `get` for it is under way. A new object
      can then have its address. */
  lemma CanFreeIff(s: State, o: ObjId)
    requires Reachable(s) && s.store.Alive(o)
    ensures Enabled(s, FreeObject(o)) <==>
      && (forall p :: p in s.store.proxies && s.store.proxies[p].impl == o ==> s.store.Is(p, Destroyed))
      && (forall t :: t in s.threads && s.threads[t].IsGet() ==> s.threads[t].impl != o)
    ensures Enabled(s, FreeObject(o)) ==>
      forall o': ObjId :: o' !in s.store.objects ==>
        Enabled(Apply(s, FreeObject(o)), NewObject(o', s.store.objects[o].addr))
  {
    ReachableInv(s);
  }
}

/**
  The proxy cache as a transition system. Threads run `get` and `remove` one micro-step at a time under the
  cache's mutex; proxies expire, handles are destroyed, and objects come and go at any moment in between.
  The environment decides when a proxy loses its last strong reference.
 */
module ProxyCache {
  import opened Options

  type Tag = nat
  type Addr = nat
  type Tid = nat
  type ObjId = nat
  type ProxyId = nat

  /** A key of the map: the type tag and the non-owning pointer, which is just an address. */
  datatype Key = Key(tag: Tag, ptr: Addr)

  /** An implementation object. An address is used again once its object is gone; an identity never is. */
  datatype Object = Object(addr: Addr, alive: bool)

  /** `Expired`: no strong reference is left, but the destructor of the proxy's handle has not finished.
      `Destroyed`: it has, and with it the strong reference to the implementation object is gone. */
  datatype Status = Live | Expired | Destroyed

  datatype Proxy = Proxy(tag: Tag, impl: ObjId, status: Status)

  /** What all threads share: the map of the cache, and the objects and proxies of the program. */
  datatype Store = Store(mapping: map<Key, ProxyId>, objects: map<ObjId, Object>, proxies: map<ProxyId, Proxy>)
  {
    predicate Is(p: ProxyId, status: Status) { p in proxies && proxies[p].status == status }

    predicate Alive(o: ObjId) { o in objects && objects[o].alive }

    predicate Maps(k: Key, p: ProxyId) { k in mapping && mapping[k] == p }

    /** The proxy is known together with the object it stands for. */
    predicate Known(p: ProxyId) { p in proxies && proxies[p].impl in objects }

    function KeyFor(tag: Tag, o: ObjId): Key
      requires o in objects
    {
      Key(tag, objects[o].addr)
    }

    /** The key under which the proxy was entered into the map. */
    function KeyOf(p: ProxyId): Key
      requires Known(p)
    {
      KeyFor(proxies[p].tag, proxies[p].impl)
    }

    function SetStatus(p: ProxyId, status: Status): Store
      requires p in proxies
    {
      this.(proxies := proxies[p := proxies[p].(status := status)])
    }

    /** `unordered_map::emplace` does not overwrite. */
    function Emplace(k: Key, p: ProxyId): Store
    {
      if k in mapping then this else this.(mapping := mapping[k := p])
    }

    function Erase(k: Key): Store { this.(mapping := mapping - {k}) }
  }

  /** Where a thread is. `Get...` carries the arguments of `get`, `Remove...` the proxy whose handle is
      being destroyed; `entry` is what an iterator into the map points at. */
  datatype Pc =
    | Idle
    | GetWait(tag: Tag, impl: ObjId)
    | GetLocked(tag: Tag, impl: ObjId)
    | GetFound(tag: Tag, impl: ObjId, entry: ProxyId)
    | GetPrune(tag: Tag, impl: ObjId, entry: ProxyId)
    | GetAlloc(tag: Tag, impl: ObjId)
    | GetEmplace(tag: Tag, impl: ObjId, p: ProxyId)
    | GetReturn(tag: Tag, impl: ObjId, p: ProxyId)
    | RemoveWait(p: ProxyId)
    | RemoveLocked(p: ProxyId)
    | RemoveFound(p: ProxyId, entry: ProxyId)
    | RemoveErase(p: ProxyId, entry: ProxyId)
    | RemoveUnlock(p: ProxyId)
    | RemoveDone(p: ProxyId)
  {
    predicate IsGet()
    {
      GetWait? || GetLocked? || GetFound? || GetPrune? || GetAlloc? || GetEmplace? || GetReturn?
    }

    predicate IsRemove()
    {
      RemoveWait? || RemoveLocked? || RemoveFound? || RemoveErase? || RemoveUnlock? || RemoveDone?
    }

    /** Between taking and releasing the mutex. */
    predicate InCritical() { !Idle? && !GetWait? && !RemoveWait? && !RemoveDone? }

    /** A local variable holds a strong reference to the proxy. */
    predicate Holds(p: ProxyId) { (GetEmplace? || GetReturn?) && this.p == p }

    predicate Removes(p: ProxyId) { IsRemove() && this.p == p }
  }

  datatype State = State(store: Store, lock: Option<Tid>, threads: map<Tid, Pc>)
  {
    function Pc(t: Tid): Pc { if t in threads then threads[t] else Idle }

    function Goto(t: Tid, pc: Pc): State { this.(threads := threads[t := pc]) }
  }

  const INIT := State(Store(map[], map[], map[]), None, map[])

  // ---------------------------------------------------------------------------------------------
  // Steps
  // ---------------------------------------------------------------------------------------------

  datatype Label =
    // get
    | CallGet(t: Tid, tag: Tag, impl: ObjId)
    | LockGet(t: Tid)
    | Find(t: Tid)
    | Upgrade(t: Tid)
    | Prune(t: Tid)
    | Alloc(t: Tid, p: ProxyId)
    | Emplace(t: Tid)
    | Return(t: Tid)
    // ~Handle and remove
    | Destroy(t: Tid, p: ProxyId)
    | LockRemove(t: Tid)
    | FindRemove(t: Tid)
    | CheckExpired(t: Tid)
    | Erase(t: Tid)
    | UnlockRemove(t: Tid)
    | DropImpl(t: Tid)
    // the environment
    | Expire(p: ProxyId)
    | NewObject(o: ObjId, addr: Addr)
    | FreeObject(o: ObjId)

  predicate Enabled(s: State, l: Label)
  {
    match l
    case CallGet(t, _, impl) => s.Pc(t).Idle? && s.store.Alive(impl)
    case LockGet(t) => s.Pc(t).GetWait? && s.lock.None?
    case Find(t) => s.Pc(t).GetLocked? && s.Pc(t).impl in s.store.objects
    case Upgrade(t) => s.Pc(t).GetFound?
    case Prune(t) => s.Pc(t).GetPrune? && s.Pc(t).impl in s.store.objects
    case Alloc(t, p) => s.Pc(t).GetAlloc? && p !in s.store.proxies
    case Emplace(t) => s.Pc(t).GetEmplace? && s.Pc(t).impl in s.store.objects
    case Return(t) => s.Pc(t).GetReturn?
    case Destroy(t, p) =>
      s.Pc(t).Idle? && s.store.Is(p, Expired) && forall t' :: t' in s.threads ==> !s.threads[t'].Removes(p)
    case LockRemove(t) => s.Pc(t).RemoveWait? && s.lock.None?
    case FindRemove(t) => s.Pc(t).RemoveLocked? && s.store.Known(s.Pc(t).p)
    case CheckExpired(t) => s.Pc(t).RemoveFound?
    case Erase(t) => s.Pc(t).RemoveErase? && s.store.Known(s.Pc(t).p)
    case UnlockRemove(t) => s.Pc(t).RemoveUnlock?
    case DropImpl(t) => s.Pc(t).RemoveDone? && s.store.Known(s.Pc(t).p)
    case Expire(p) => s.store.Is(p, Live) && forall t :: t in s.threads ==> !s.threads[t].Holds(p)
    case NewObject(o, addr) =>
      && o !in s.store.objects
      && forall o' :: o' in s.store.objects && s.store.Alive(o') ==> s.store.objects[o'].addr != addr
    case FreeObject(o) =>
      && s.store.Alive(o)
      && (forall p :: p in s.store.proxies && s.store.proxies[p].status != Destroyed ==> s.store.proxies[p].impl != o)
      && (forall t :: t in s.threads && s.threads[t].IsGet() ==> s.threads[t].impl != o)
  }

  function Apply(s: State, l: Label): State
    requires Enabled(s, l)
  {
    var m := s.store;
    match l
    case CallGet(t, tag, impl) => s.Goto(t, GetWait(tag, impl))
    case LockGet(t) => s.(lock := Some(t)).Goto(t, GetLocked(s.Pc(t).tag, s.Pc(t).impl))
    case Find(t) =>
      var (tag, impl) := (s.Pc(t).tag, s.Pc(t).impl);
      var k := m.KeyFor(tag, impl);
      s.Goto(t, if k in m.mapping then GetFound(tag, impl, m.mapping[k]) else GetAlloc(tag, impl))
    case Upgrade(t) =>
      var GetFound(tag, impl, entry) := s.Pc(t);
      s.Goto(t, if m.Is(entry, Live) then GetReturn(tag, impl, entry) else GetPrune(tag, impl, entry))
    case Prune(t) =>
      var (tag, impl) := (s.Pc(t).tag, s.Pc(t).impl);
      s.(store := m.Erase(m.KeyFor(tag, impl))).Goto(t, GetAlloc(tag, impl))
    case Alloc(t, p) =>
      var (tag, impl) := (s.Pc(t).tag, s.Pc(t).impl);
      s.(store := m.(proxies := m.proxies[p := Proxy(tag, impl, Live)])).Goto(t, GetEmplace(tag, impl, p))
    case Emplace(t) =>
      var GetEmplace(tag, impl, p) := s.Pc(t);
      s.(store := m.Emplace(m.KeyFor(tag, impl), p)).Goto(t, GetReturn(tag, impl, p))
    case Return(t) => s.(lock := None).Goto(t, Idle)
    case Destroy(t, p) => s.Goto(t, RemoveWait(p))
    case LockRemove(t) => s.(lock := Some(t)).Goto(t, RemoveLocked(s.Pc(t).p))
    case FindRemove(t) =>
      var p := s.Pc(t).p;
      var k := m.KeyOf(p);
      s.Goto(t, if k in m.mapping then RemoveFound(p, m.mapping[k]) else RemoveUnlock(p))
    case CheckExpired(t) =>
      var RemoveFound(p, entry) := s.Pc(t);
      s.Goto(t, if m.Is(entry, Live) then RemoveUnlock(p) else RemoveErase(p, entry))
    case Erase(t) =>
      var p := s.Pc(t).p;
      s.(store := m.Erase(m.KeyOf(p))).Goto(t, RemoveUnlock(p))
    case UnlockRemove(t) => s.(lock := None).Goto(t, RemoveDone(s.Pc(t).p))
    case DropImpl(t) => s.(store := m.SetStatus(s.Pc(t).p, Destroyed)).Goto(t, Idle)
    case Expire(p) => s.(store := m.SetStatus(p, Expired))
    case NewObject(o, addr) => s.(store := m.(objects := m.objects[o := Object(addr, true)]))
    case FreeObject(o) => s.(store := m.(objects := m.objects[o := m.objects[o].(alive := false)]))
  }

  // ---------------------------------------------------------------------------------------------
  // The invariant
  // ---------------------------------------------------------------------------------------------

  /** Each handle that is not yet destroyed keeps its implementation object alive. */
  ghost predicate HandlesHold(m: Store)
  {
    forall p :: p in m.proxies ==> m.Known(p) && (m.proxies[p].status != Destroyed ==> m.Alive(m.proxies[p].impl))
  }

  /** Living objects have different addresses. */
  ghost predicate AddressesDiffer(m: Store)
  {
    forall o: ObjId, o': ObjId :: m.Alive(o) && m.Alive(o') && m.objects[o].addr == m.objects[o'].addr ==> o == o'
  }

  /** Each entry of the map belongs, under its own key, to a proxy whose handle is not yet destroyed. */
  ghost predicate EntriesBelong(m: Store)
  {
    forall k :: k in m.mapping ==>
      m.Known(m.mapping[k]) && m.KeyOf(m.mapping[k]) == k && m.proxies[m.mapping[k]].status != Destroyed
  }

  ghost predicate StoreOk(m: Store) { HandlesHold(m) && AddressesDiffer(m) && EntriesBelong(m) }

  ghost predicate IsMapped(m: Store, p: ProxyId) { m.Known(p) && m.Maps(m.KeyOf(p), p) }

  /** Each live proxy, except one that is still unpublished, is what its key maps to. */
  ghost predicate LiveMapped(m: Store, unpublished: Option<ProxyId>)
  {
    forall p: ProxyId :: m.Is(p, Live) && unpublished != Some(p) ==> IsMapped(m, p)
  }

  /** The proxy that the owner of the mutex has allocated but not yet entered into the map. */
  ghost function Unpublished(s: State): Option<ProxyId>
  {
    if s.lock.Some? && s.Pc(s.lock.value).GetEmplace? then Some(s.Pc(s.lock.value).p) else None
  }

  ghost predicate LockOk(s: State)
  {
    && (forall t :: t in s.threads && s.threads[t].InCritical() ==> s.lock == Some(t))
    && (s.lock.Some? ==> s.Pc(s.lock.value).InCritical())
  }

  /** Each handle is destroyed by one thread only. */
  ghost predicate DestroyedOnce(s: State)
  {
    forall t, t', p: ProxyId ::
      t in s.threads && t' in s.threads && s.threads[t].Removes(p) && s.threads[t'].Removes(p) ==> t == t'
  }

  /** What a thread knows at each point of its program. */
  ghost predicate PcOk(m: Store, pc: Pc)
  {
    && (pc.IsGet() ==> m.Alive(pc.impl))
    && (pc.IsRemove() ==> m.Known(pc.p) && m.Is(pc.p, Expired))
    && match pc
       case GetFound(tag, impl, e) => m.Maps(m.KeyFor(tag, impl), e)
       case GetPrune(tag, impl, e) => m.Maps(m.KeyFor(tag, impl), e) && m.Is(e, Expired)
       case GetAlloc(tag, impl) => m.KeyFor(tag, impl) !in m.mapping
       case GetEmplace(tag, impl, p) =>
         m.KeyFor(tag, impl) !in m.mapping && p in m.proxies && m.proxies[p] == Proxy(tag, impl, Live)
       case GetReturn(tag, impl, p) => p in m.proxies && m.proxies[p] == Proxy(tag, impl, Live)
       case RemoveFound(p, e) => m.Maps(m.KeyOf(p), e)
       case RemoveErase(p, e) => m.Maps(m.KeyOf(p), e) && m.Is(e, Expired)
       case RemoveUnlock(p) => !IsMapped(m, p)
       case RemoveDone(p) => !IsMapped(m, p)
       case _ => true
  }

  ghost predicate ThreadsOk(m: Store, threads: map<Tid, Pc>) { forall t :: t in threads ==> PcOk(m, threads[t]) }

  ghost predicate Inv(s: State)
  {
    && StoreOk(s.store) && LiveMapped(s.store, Unpublished(s))
    && LockOk(s) && DestroyedOnce(s) && ThreadsOk(s.store, s.threads)
  }

  lemma InvInit()
    ensures Inv(INIT)
  {
  }

  // How each change of the store keeps it consistent, and what it leaves true for threads that are not the
  // one that makes the change.

  lemma EraseExpired(m: Store, k: Key, u: Option<ProxyId>)
    requires StoreOk(m) && LiveMapped(m, u) && k in m.mapping && m.Is(m.mapping[k], Expired)
    ensures StoreOk(m.Erase(k)) && LiveMapped(m.Erase(k), u)
  {
    var m' := m.Erase(k);
    forall p: ProxyId | m'.Is(p, Live) && u != Some(p)
      ensures IsMapped(m', p)
    {
      assert IsMapped(m, p);
    }
  }

  lemma EraseKeepsPc(m: Store, k: Key, pc: Pc)
    requires PcOk(m, pc) && !pc.InCritical()
    ensures PcOk(m.Erase(k), pc)
  {
  }

  lemma EmplaceNew(m: Store, k: Key, p: ProxyId)
    requires StoreOk(m) && LiveMapped(m, Some(p)) && k !in m.mapping
    requires m.Known(p) && m.KeyOf(p) == k && m.Is(p, Live)
    ensures StoreOk(m.Emplace(k, p)) && LiveMapped(m.Emplace(k, p), None)
  {
    var m' := m.Emplace(k, p);
    forall q: ProxyId | m'.Is(q, Live)
      ensures IsMapped(m', q)
    {
      assert q != p ==> IsMapped(m, q);
    }
  }

  lemma EmplaceKeepsPc(m: Store, k: Key, p: ProxyId, pc: Pc)
    requires PcOk(m, pc) && !pc.InCritical() && k !in m.mapping && m.Is(p, Live)
    ensures PcOk(m.Emplace(k, p), pc)
  {
  }

  lemma AllocNew(m: Store, p: ProxyId, tag: Tag, o: ObjId)
    requires StoreOk(m) && LiveMapped(m, None) && p !in m.proxies && m.Alive(o)
    ensures var m' := m.(proxies := m.proxies[p := Proxy(tag, o, Live)]);
            StoreOk(m') && LiveMapped(m', Some(p))
  {
    var m' := m.(proxies := m.proxies[p := Proxy(tag, o, Live)]);
    forall q: ProxyId | m'.Is(q, Live) && q != p
      ensures IsMapped(m', q)
    {
      assert IsMapped(m, q);
    }
  }

  lemma AllocKeepsPc(m: Store, p: ProxyId, proxy: Proxy, pc: Pc)
    requires StoreOk(m) && PcOk(m, pc) && p !in m.proxies
    ensures PcOk(m.(proxies := m.proxies[p := proxy]), pc)
  {
  }

  lemma ExpireLive(m: Store, p: ProxyId, u: Option<ProxyId>)
    requires StoreOk(m) && LiveMapped(m, u) && m.Is(p, Live)
    ensures StoreOk(m.SetStatus(p, Expired)) && LiveMapped(m.SetStatus(p, Expired), u)
  {
    var m' := m.SetStatus(p, Expired);
    forall q: ProxyId | m'.Is(q, Live) && u != Some(q)
      ensures IsMapped(m', q)
    {
      assert IsMapped(m, q);
    }
  }

  lemma ExpireKeepsPc(m: Store, p: ProxyId, pc: Pc)
    requires StoreOk(m) && PcOk(m, pc) && m.Is(p, Live) && !pc.Holds(p)
    ensures PcOk(m.SetStatus(p, Expired), pc)
  {
  }

  lemma DestroyUnmapped(m: Store, p: ProxyId, u: Option<ProxyId>)
    requires StoreOk(m) && LiveMapped(m, u) && m.Is(p, Expired) && !IsMapped(m, p)
    ensures StoreOk(m.SetStatus(p, Destroyed)) && LiveMapped(m.SetStatus(p, Destroyed), u)
  {
    var m' := m.SetStatus(p, Destroyed);
    forall q: ProxyId | m'.Is(q, Live) && u != Some(q)
      ensures IsMapped(m', q)
    {
      assert IsMapped(m, q);
    }
  }

  lemma DestroyKeepsPc(m: Store, p: ProxyId, pc: Pc)
    requires StoreOk(m) && PcOk(m, pc) && m.Is(p, Expired) && !IsMapped(m, p) && !pc.Removes(p)
    ensures PcOk(m.SetStatus(p, Destroyed), pc)
  {
  }

  lemma ObjectsChange(m: Store, o: ObjId, obj: Object, u: Option<ProxyId>)
    requires StoreOk(m) && LiveMapped(m, u)
    requires o in m.objects ==> obj == m.objects[o].(alive := false)
    requires o !in m.objects ==> forall o': ObjId :: m.Alive(o') ==> m.objects[o'].addr != obj.addr
    requires forall p :: p in m.proxies && m.proxies[p].status != Destroyed ==> m.proxies[p].impl != o
    ensures var m' := m.(objects := m.objects[o := obj]); StoreOk(m') && LiveMapped(m', u)
  {
    var m' := m.(objects := m.objects[o := obj]);
    assert forall p: ProxyId :: m.Known(p) ==> m'.Known(p) && m'.KeyOf(p) == m.KeyOf(p);
    forall p: ProxyId | m'.Is(p, Live) && u != Some(p)
      ensures IsMapped(m', p)
    {
      assert m.Is(p, Live);
      assert IsMapped(m, p);
    }
  }

  lemma ObjectsChangeKeepsPc(m: Store, o: ObjId, obj: Object, pc: Pc)
    requires StoreOk(m) && PcOk(m, pc)
    requires o in m.objects ==> obj == m.objects[o].(alive := false) && !(pc.IsGet() && pc.impl == o)
    requires forall p :: p in m.proxies && m.proxies[p].status != Destroyed ==> m.proxies[p].impl != o
    ensures PcOk(m.(objects := m.objects[o := obj]), pc)
  {
  }

  lemma InvCallGet(s: State, l: Label)
    requires l.CallGet? && Inv(s) && Enabled(s, l)
    ensures Inv(Apply(s, l))
  {
  }

  lemma InvLockGet(s: State, l: Label)
    requires l.LockGet? && Inv(s) && Enabled(s, l)
    ensures Inv(Apply(s, l))
  {
  }

  lemma InvFind(s: State, l: Label)
    requires l.Find? && Inv(s) && Enabled(s, l)
    ensures Inv(Apply(s, l))
  {
  }

  lemma InvUpgrade(s: State, l: Label)
    requires l.Upgrade? && Inv(s) && Enabled(s, l)
    ensures Inv(Apply(s, l))
  {
  }

  lemma InvPrune(s: State, l: Label)
    requires l.Prune? && Inv(s) && Enabled(s, l)
    ensures Inv(Apply(s, l))
  {
    var m, s', pc := s.store, Apply(s, l), s.Pc(l.t);
    var k := m.KeyFor(pc.tag, pc.impl);
    EraseExpired(m, k, None);
    forall t' | t' in s.threads && t' != l.t
      ensures PcOk(s'.store, s.threads[t'])
    {
      EraseKeepsPc(m, k, s.threads[t']);
    }
  }

  lemma InvAlloc(s: State, l: Label)
    requires l.Alloc? && Inv(s) && Enabled(s, l)
    ensures Inv(Apply(s, l))
  {
    var m, s', pc := s.store, Apply(s, l), s.Pc(l.t);
    AllocNew(m, l.p, pc.tag, pc.impl);
    forall t' | t' in s.threads && t' != l.t
      ensures PcOk(s'.store, s.threads[t'])
    {
      AllocKeepsPc(m, l.p, Proxy(pc.tag, pc.impl, Live), s.threads[t']);
    }
  }

  lemma InvEmplace(s: State, l: Label)
    requires l.Emplace? && Inv(s) && Enabled(s, l)
    ensures Inv(Apply(s, l))
  {
    var m, s', pc := s.store, Apply(s, l), s.Pc(l.t);
    var k := m.KeyFor(pc.tag, pc.impl);
    EmplaceNew(m, k, pc.p);
    forall t' | t' in s.threads && t' != l.t
      ensures PcOk(s'.store, s.threads[t'])
    {
      EmplaceKeepsPc(m, k, pc.p, s.threads[t']);
    }
  }

  lemma InvReturn(s: State, l: Label)
    requires l.Return? && Inv(s) && Enabled(s, l)
    ensures Inv(Apply(s, l))
  {
  }

  lemma InvDestroy(s: State, l: Label)
    requires l.Destroy? && Inv(s) && Enabled(s, l)
    ensures Inv(Apply(s, l))
  {
  }

  lemma InvLockRemove(s: State, l: Label)
    requires l.LockRemove? && Inv(s) && Enabled(s, l)
    ensures Inv(Apply(s, l))
  {
  }

  lemma InvFindRemove(s: State, l: Label)
    requires l.FindRemove? && Inv(s) && Enabled(s, l)
    ensures Inv(Apply(s, l))
  {
  }

  lemma InvCheckExpired(s: State, l: Label)
    requires l.CheckExpired? && Inv(s) && Enabled(s, l)
    ensures Inv(Apply(s, l))
  {
  }

  lemma InvErase(s: State, l: Label)
    requires l.Erase? && Inv(s) && Enabled(s, l)
    ensures Inv(Apply(s, l))
  {
    var m, s', pc := s.store, Apply(s, l), s.Pc(l.t);
    var k := m.KeyOf(pc.p);
    EraseExpired(m, k, None);
    forall t' | t' in s.threads && t' != l.t
      ensures PcOk(s'.store, s.threads[t'])
    {
      EraseKeepsPc(m, k, s.threads[t']);
    }
  }

  lemma InvUnlockRemove(s: State, l: Label)
    requires l.UnlockRemove? && Inv(s) && Enabled(s, l)
    ensures Inv(Apply(s, l))
  {
  }

  lemma InvDropImpl(s: State, l: Label)
    requires l.DropImpl? && Inv(s) && Enabled(s, l)
    ensures Inv(Apply(s, l))
  {
    DropImplLocks(s, l);
    DropImplStore(s, l);
  }

  lemma DropImplStore(s: State, l: Label)
    requires l.DropImpl? && Enabled(s, l)
    requires StoreOk(s.store) && LiveMapped(s.store, Unpublished(s)) && ThreadsOk(s.store, s.threads)
    requires forall t' :: t' in s.threads && t' != l.t ==> !s.threads[t'].Removes(s.Pc(l.t).p)
    ensures var m' := Apply(s, l).store;
            StoreOk(m') && LiveMapped(m', Unpublished(s)) && ThreadsOk(m', Apply(s, l).threads)
  {
    var m, s', p := s.store, Apply(s, l), s.Pc(l.t).p;
    assert PcOk(m, s.Pc(l.t));
    DestroyUnmapped(m, p, Unpublished(s));
    forall t' | t' in s.threads && t' != l.t
      ensures PcOk(s'.store, s.threads[t'])
    {
      DestroyKeepsPc(m, p, s.threads[t']);
    }
  }

  lemma DropImplLocks(s: State, l: Label)
    requires l.DropImpl? && Enabled(s, l) && LockOk(s) && DestroyedOnce(s)
    ensures LockOk(Apply(s, l)) && DestroyedOnce(Apply(s, l)) && Unpublished(Apply(s, l)) == Unpublished(s)
    ensures forall t' :: t' in s.threads && t' != l.t ==> !s.threads[t'].Removes(s.Pc(l.t).p)
  {
    assert s.Pc(l.t).Removes(s.Pc(l.t).p);
  }

  lemma InvExpire(s: State, l: Label)
    requires l.Expire? && Inv(s) && Enabled(s, l)
    ensures Inv(Apply(s, l))
  {
    var m, s' := s.store, Apply(s, l);
    ExpireLive(m, l.p, Unpublished(s));
    forall t' | t' in s.threads
      ensures PcOk(s'.store, s.threads[t'])
    {
      ExpireKeepsPc(m, l.p, s.threads[t']);
    }
  }

  lemma InvNewObject(s: State, l: Label)
    requires l.NewObject? && Inv(s) && Enabled(s, l)
    ensures Inv(Apply(s, l))
  {
    var m, s' := s.store, Apply(s, l);
    ObjectsChange(m, l.o, Object(l.addr, true), Unpublished(s));
    forall t' | t' in s.threads
      ensures PcOk(s'.store, s.threads[t'])
    {
      ObjectsChangeKeepsPc(m, l.o, Object(l.addr, true), s.threads[t']);
    }
  }

  lemma InvFreeObject(s: State, l: Label)
    requires l.FreeObject? && Inv(s) && Enabled(s, l)
    ensures Inv(Apply(s, l))
  {
    var m, s' := s.store, Apply(s, l);
    var obj := m.objects[l.o].(alive := false);
    ObjectsChange(m, l.o, obj, Unpublished(s));
    forall t' | t' in s.threads
      ensures PcOk(s'.store, s.threads[t'])
    {
      ObjectsChangeKeepsPc(m, l.o, obj, s.threads[t']);
    }
  }

  /** Every step keeps the invariant. */
  lemma InvStep(s: State, l: Label)
    requires Inv(s) && Enabled(s, l)
    ensures Inv(Apply(s, l))
  {
    match l
    case CallGet(_, _, _) => InvCallGet(s, l);
    case LockGet(_) => InvLockGet(s, l);
    case Find(_) => InvFind(s, l);
    case Upgrade(_) => InvUpgrade(s, l);
    case Prune(_) => InvPrune(s, l);
    case Alloc(_, _) => InvAlloc(s, l);
    case Emplace(_) => InvEmplace(s, l);
    case Return(_) => InvReturn(s, l);
    case Destroy(_, _) => InvDestroy(s, l);
    case LockRemove(_) => InvLockRemove(s, l);
    case FindRemove(_) => InvFindRemove(s, l);
    case CheckExpired(_) => InvCheckExpired(s, l);
    case Erase(_) => InvErase(s, l);
    case UnlockRemove(_) => InvUnlockRemove(s, l);
    case DropImpl(_) => InvDropImpl(s, l);
    case Expire(_) => InvExpire(s, l);
    case NewObject(_, _) => InvNewObject(s, l);
    case FreeObject(_) => InvFreeObject(s, l);
  }

  // ---------------------------------------------------------------------------------------------
  // Runs
  // ---------------------------------------------------------------------------------------------

  /** The state after the steps `ls`, if each of them was enabled when its turn came. */
  function Exec(s: State, ls: seq<Label>): Option<State>
  {
    if ls == [] then Some(s) else
      match Exec(s, ls[..|ls| - 1])
      case Some(s') => if Enabled(s', ls[|ls| - 1]) then Some(Apply(s', ls[|ls| - 1])) else None
      case None => None
  }

  lemma {:induction false} InvRun(s: State, ls: seq<Label>)
    requires Inv(s) && Exec(s, ls).Some?
    ensures Inv(Exec(s, ls).value)
  {
    if ls != [] {
      InvRun(s, ls[..|ls| - 1]);
      InvStep(Exec(s, ls[..|ls| - 1]).value, ls[|ls| - 1]);
    }
  }

  lemma {:induction false} ExecConcat(s: State, a: seq<Label>, b: seq<Label>)
    requires Exec(s, a).Some?
    ensures Exec(s, a + b) == Exec(Exec(s, a).value, b)
  {
    if b == [] {
      assert a + b == a;
    } else {
      assert (a + b)[..|a + b| - 1] == a + b[..|b| - 1];
      ExecConcat(s, a, b[..|b| - 1]);
    }
  }

  ghost predicate Reachable(s: State) { exists ls :: Exec(INIT, ls) == Some(s) }

  lemma ReachableInv(s: State)
    requires Reachable(s)
    ensures Inv(s)
  {
    var ls :| Exec(INIT, ls) == Some(s);
    InvInit();
    InvRun(INIT, ls);
  }

  // ---------------------------------------------------------------------------------------------
  // Safety, in every reachable state of any interleaving
  // ---------------------------------------------------------------------------------------------

  /** At most one live proxy stands for an object under a tag, and once published the map holds it. */
  lemma LiveProxyIsUnique(s: State, p: ProxyId, q: ProxyId)
    requires Reachable(s)
    requires s.store.Is(p, Live) && s.store.Is(q, Live)
    requires s.store.proxies[p].tag == s.store.proxies[q].tag && s.store.proxies[p].impl == s.store.proxies[q].impl
    ensures p == q
    ensures Unpublished(s) != Some(p) ==> IsMapped(s.store, p)
  {
    ReachableInv(s);
    assert s.store.Known(p) && s.store.KeyOf(p) == s.store.KeyOf(q);
    if Unpublished(s) == Some(p) || Unpublished(s) == Some(q) {
      assert PcOk(s.store, s.Pc(s.lock.value));
    }
  }

  /** Each entry belongs to a proxy whose handle still holds its object, so it can match no other object,
      whatever was allocated at the same address since. */
  lemma EntryMatchesItsObjectOnly(s: State, tag: Tag, o: ObjId)
    requires Reachable(s) && s.store.Alive(o) && s.store.KeyFor(tag, o) in s.store.mapping
    ensures var p := s.store.mapping[s.store.KeyFor(tag, o)];
            && p in s.store.proxies && s.store.proxies[p].status != Destroyed
            && s.store.proxies[p].tag == tag && s.store.proxies[p].impl == o
  {
    ReachableInv(s);
  }

  /** Nothing evicts a live proxy: neither the prune of a `get` nor a late `remove`, nor anything else. */
  lemma LiveIsNeverEvicted(s: State, l: Label, p: ProxyId)
    requires Reachable(s) && Enabled(s, l)
    requires IsMapped(s.store, p) && Apply(s, l).store.Is(p, Live)
    ensures IsMapped(Apply(s, l).store, p)
  {
    ReachableInv(s);
    InvStep(s, l);
    var s' := Apply(s, l);
    assert s.store.Is(p, Live);
    if Unpublished(s') == Some(p) {
      UnpublishedIsUnmapped(s', p);
      UnpublishedBefore(s, l, p);
      UnpublishedIsUnmapped(s, p);
    }
  }

  lemma UnpublishedIsUnmapped(s: State, p: ProxyId)
    requires Inv(s) && Unpublished(s) == Some(p)
    ensures !IsMapped(s.store, p)
  {
    assert PcOk(s.store, s.Pc(s.lock.value));
  }

  lemma UnpublishedBefore(s: State, l: Label, p: ProxyId)
    requires Enabled(s, l) && p in s.store.proxies && Unpublished(Apply(s, l)) == Some(p)
    ensures Unpublished(s) == Some(p)
  {
  }

  /** When the mutex is free and no expired proxy is waiting for its handle's destruction, the map holds
      exactly the live proxies. */
  lemma QuiescentMapIsLive(s: State)
    requires Reachable(s) && s.lock.None?
    requires forall p: ProxyId :: !s.store.Is(p, Expired)
    ensures forall k, p: ProxyId ::
      s.store.Maps(k, p) <==> s.store.Is(p, Live) && s.store.Known(p) && s.store.KeyOf(p) == k
  {
    ReachableInv(s);
    forall k, p: ProxyId
      ensures s.store.Maps(k, p) <==> s.store.Is(p, Live) && s.store.Known(p) && s.store.KeyOf(p) == k
    {
      if s.store.Is(p, Live) { assert IsMapped(s.store, p); }
      if s.store.Maps(k, p) { assert s.store.Known(p) && !s.store.Is(p, Expired); }
    }
  }

  /** A `get` that returns has a live proxy for exactly the object and tag it was asked for. */
  lemma GetReturnsProxyOfItsObject(s: State, t: Tid)
    requires Reachable(s) && s.Pc(t).GetReturn?
    ensures s.store.Is(s.Pc(t).p, Live)
    ensures s.store.proxies[s.Pc(t).p].tag == s.Pc(t).tag && s.store.proxies[s.Pc(t).p].impl == s.Pc(t).impl
  {
    ReachableInv(s);
  }

  lemma ProxyKeepsItsObject(s: State, l: Label, p: ProxyId)
    requires Enabled(s, l) && p in s.store.proxies
    ensures p in Apply(s, l).store.proxies
    ensures Apply(s, l).store.proxies[p].tag == s.store.proxies[p].tag
    ensures Apply(s, l).store.proxies[p].impl == s.store.proxies[p].impl
    ensures s.store.proxies[p].status != Live ==> Apply(s, l).store.proxies[p].status != Live
  {
  }

  lemma {:induction false} ProxyKeepsItsObjectInRun(s: State, ls: seq<Label>, p: ProxyId)
    requires Exec(s, ls).Some? && p in s.store.proxies
    ensures var m := Exec(s, ls).value.store;
            && p in m.proxies && m.proxies[p].tag == s.store.proxies[p].tag
            && m.proxies[p].impl == s.store.proxies[p].impl
            && (s.store.proxies[p].status != Live ==> m.proxies[p].status != Live)
  {
    if ls != [] {
      ProxyKeepsItsObjectInRun(s, ls[..|ls| - 1], p);
      ProxyKeepsItsObject(Exec(s, ls[..|ls| - 1]).value, ls[|ls| - 1], p);
    }
  }

  /** While a proxy lives, whatever happens in between, each `get` for its object and tag returns it. */
  lemma GetIsStable(s: State, ls: seq<Label>, p: ProxyId, t: Tid)
    requires Reachable(s) && s.store.Is(p, Live) && Exec(s, ls).Some?
    requires var s' := Exec(s, ls).value;
             && s'.store.Is(p, Live) && s'.Pc(t).GetReturn?
             && s'.Pc(t).tag == s.store.proxies[p].tag && s'.Pc(t).impl == s.store.proxies[p].impl
    ensures Exec(s, ls).value.Pc(t).p == p
  {
    var s' := Exec(s, ls).value;
    ReachableConcat(s, ls);
    ProxyKeepsItsObjectInRun(s, ls, p);
    GetReturnsProxyOfItsObject(s', t);
    LiveProxyIsUnique(s', p, s'.Pc(t).p);
  }

  lemma ReachableConcat(s: State, ls: seq<Label>)
    requires Reachable(s) && Exec(s, ls).Some?
    ensures Reachable(Exec(s, ls).value)
  {
    var before :| Exec(INIT, before) == Some(s);
    ExecConcat(INIT, before, ls);
  }
}

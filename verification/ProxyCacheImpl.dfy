/**
  `get` and `remove` as they are written, each micro-step under interference from every other thread and from
  the environment. Each method is a run of the transition system, so all that is proved about runs holds of it.
 */
module ProxyCacheImpl {
  import opened Options
  import opened ProxyCache

  /** Some run leads from `s` to `s'`. */
  ghost predicate Reaches(s: State, s': State) { exists ls :: Exec(s, ls) == Some(s') }

  lemma Stay(s: State)
    ensures Reaches(s, s)
  {
    assert Exec(s, []) == Some(s);
  }

  lemma Advance(start: State, s: State, l: Label)
    requires Inv(s) && Reaches(start, s) && Enabled(s, l)
    ensures Inv(Apply(s, l)) && Reaches(start, Apply(s, l))
  {
    var ls :| Exec(start, ls) == Some(s);
    assert (ls + [l])[..|ls|] == ls;
    assert Exec(start, ls + [l]) == Some(Apply(s, l));
    InvStep(s, l);
  }

  lemma Join(start: State, mid: State, end: State)
    requires Reaches(start, mid) && Reaches(mid, end)
    ensures Reaches(start, end)
  {
    var a :| Exec(start, a) == Some(mid);
    var b :| Exec(mid, b) == Some(end);
    ExecConcat(start, a, b);
  }

  class Pimpl {
    var mapping: map<Key, ProxyId>
    // What the program around the cache looks like.
    var objects: map<ObjId, Object>
    var proxies: map<ProxyId, Proxy>
    var next: ProxyId
    ghost var lock: Option<Tid>
    ghost var threads: map<Tid, Pc>

    ghost function Snapshot(): State
      reads this
    {
      State(Store(mapping, objects, proxies), lock, threads)
    }

    ghost predicate Valid()
      reads this
    {
      Inv(Snapshot()) && forall p :: p in proxies ==> p < next
    }

    constructor ()
      ensures Valid() && Snapshot() == INIT
    {
      mapping, objects, proxies, next, lock, threads := map[], map[], map[], 0, None, map[];
      new;
      InvInit();
    }

    /** Everybody else may do anything here. The body does nothing; what counts is that callers know no more
        than the postcondition. */
    method Interfere(ghost start: State, ghost t: Tid)
      requires Valid() && Reaches(start, Snapshot())
      modifies this
      ensures Valid() && Reaches(start, Snapshot()) && Reaches(old(Snapshot()), Snapshot())
      ensures Snapshot().Pc(t) == old(Snapshot().Pc(t))
    {
      Stay(Snapshot());
    }

    // The micro-steps of `get`, each followed by interference.

    method LockGet(ghost start: State, ghost t: Tid, tag: Tag, impl: ObjId)
      requires Valid() && Reaches(start, Snapshot()) && Snapshot().Pc(t) == GetWait(tag, impl) && lock.None?
      modifies this
      ensures Valid() && Reaches(start, Snapshot()) && Snapshot().Pc(t) == GetLocked(tag, impl)
    {
      Advance(start, Snapshot(), Label.LockGet(t));
      lock, threads := Some(t), threads[t := GetLocked(tag, impl)];
      Interfere(start, t);
    }

    method Find(ghost start: State, ghost t: Tid, tag: Tag, impl: ObjId) returns (entry: Option<ProxyId>)
      requires Valid() && Reaches(start, Snapshot()) && Snapshot().Pc(t) == GetLocked(tag, impl)
      modifies this
      ensures Valid() && Reaches(start, Snapshot())
      ensures Snapshot().Pc(t) == if entry.Some? then GetFound(tag, impl, entry.value) else GetAlloc(tag, impl)
    {
      Advance(start, Snapshot(), Label.Find(t));
      var key := Key(tag, objects[impl].addr);
      entry := if key in mapping then Some(mapping[key]) else None;
      threads := threads[t := if entry.Some? then GetFound(tag, impl, entry.value) else GetAlloc(tag, impl)];
      Interfere(start, t);
    }

    method Upgrade(ghost start: State, ghost t: Tid, ghost tag: Tag, ghost impl: ObjId, entry: ProxyId)
      returns (strong: bool)
      requires Valid() && Reaches(start, Snapshot()) && Snapshot().Pc(t) == GetFound(tag, impl, entry)
      modifies this
      ensures Valid() && Reaches(start, Snapshot())
      ensures Snapshot().Pc(t) == if strong then GetReturn(tag, impl, entry) else GetPrune(tag, impl, entry)
    {
      Advance(start, Snapshot(), Label.Upgrade(t));
      strong := entry in proxies && proxies[entry].status == Live;
      threads := threads[t := if strong then GetReturn(tag, impl, entry) else GetPrune(tag, impl, entry)];
      Interfere(start, t);
    }

    method Prune(ghost start: State, ghost t: Tid, tag: Tag, impl: ObjId, ghost entry: ProxyId)
      requires Valid() && Reaches(start, Snapshot()) && Snapshot().Pc(t) == GetPrune(tag, impl, entry)
      modifies this
      ensures Valid() && Reaches(start, Snapshot()) && Snapshot().Pc(t) == GetAlloc(tag, impl)
    {
      Advance(start, Snapshot(), Label.Prune(t));
      mapping := mapping - {Key(tag, objects[impl].addr)};
      threads := threads[t := GetAlloc(tag, impl)];
      Interfere(start, t);
    }

    method Alloc(ghost start: State, ghost t: Tid, tag: Tag, impl: ObjId) returns (p: ProxyId)
      requires Valid() && Reaches(start, Snapshot()) && Snapshot().Pc(t) == GetAlloc(tag, impl)
      modifies this
      ensures Valid() && Reaches(start, Snapshot()) && Snapshot().Pc(t) == GetEmplace(tag, impl, p)
      ensures p !in old(proxies)
    {
      p := next;
      Advance(start, Snapshot(), Label.Alloc(t, p));
      proxies, next := proxies[p := Proxy(tag, impl, Live)], next + 1;
      threads := threads[t := GetEmplace(tag, impl, p)];
      Interfere(start, t);
    }

    method Emplace(ghost start: State, ghost t: Tid, tag: Tag, impl: ObjId, p: ProxyId)
      requires Valid() && Reaches(start, Snapshot()) && Snapshot().Pc(t) == GetEmplace(tag, impl, p)
      modifies this
      ensures Valid() && Reaches(start, Snapshot()) && Snapshot().Pc(t) == GetReturn(tag, impl, p)
    {
      Advance(start, Snapshot(), Label.Emplace(t));
      var key := Key(tag, objects[impl].addr);
      if key !in mapping {
        mapping := mapping[key := p];
      }
      threads := threads[t := GetReturn(tag, impl, p)];
      Interfere(start, t);
    }

    /** `get`, from the moment its thread is granted the mutex until it returns: the result is the one live
        proxy of the object under the tag, and the map holds it. */
    method Get(ghost t: Tid, tag: Tag, impl: ObjId) returns (p: ProxyId)
      requires Valid() && Snapshot().Pc(t) == GetWait(tag, impl) && lock.None?
      modifies this
      ensures Valid() && Reaches(old(Snapshot()), Snapshot()) && Snapshot().Pc(t).Idle? && lock.None?
      ensures p in proxies && proxies[p] == Proxy(tag, impl, Live) && IsMapped(Snapshot().store, p)
      ensures forall q: ProxyId :: Snapshot().store.Is(q, Live) && proxies[q] == proxies[p] ==> q == p
    {
      ghost var start := Snapshot();
      Stay(start);
      LockGet(start, t, tag, impl);
      var entry := Find(start, t, tag, impl);
      var strong := false;
      if entry.Some? {
        p := entry.value;
        strong := Upgrade(start, t, tag, impl, p);
        if !strong {
          Prune(start, t, tag, impl, p);
        }
      }
      if !strong {
        p := Alloc(start, t, tag, impl);
        Emplace(start, t, tag, impl, p);
      }
      Return(start, t);
    }

    /** Releasing the mutex ends `get`. */
    method Return(ghost start: State, ghost t: Tid)
      requires Valid() && Reaches(start, Snapshot()) && Snapshot().Pc(t).GetReturn?
      modifies this
      ensures Valid() && Reaches(start, Snapshot()) && Snapshot().Pc(t).Idle? && lock.None?
      ensures var GetReturn(tag, impl, p) := old(Snapshot().Pc(t));
              && p in proxies && proxies[p] == Proxy(tag, impl, Live) && IsMapped(Snapshot().store, p)
              && forall q: ProxyId :: Snapshot().store.Is(q, Live) && proxies[q] == proxies[p] ==> q == p
    {
      Advance(start, Snapshot(), Label.Return(t));
      ReturnedIsTheOne(Snapshot(), t);
      lock, threads := None, threads[t := Idle];
    }

    lemma ReturnedIsTheOne(s: State, t: Tid)
      requires Inv(s) && s.Pc(t).GetReturn?
      ensures var p := s.Pc(t).p;
              && p in s.store.proxies && s.store.proxies[p] == Proxy(s.Pc(t).tag, s.Pc(t).impl, Live)
              && IsMapped(s.store, p)
              && forall q: ProxyId :: s.store.Is(q, Live) && s.store.proxies[q] == s.store.proxies[p] ==> q == p
    {
      assert PcOk(s.store, s.Pc(t));
    }

    // The micro-steps of `remove`.

    method LockRemove(ghost start: State, ghost t: Tid, p: ProxyId)
      requires Valid() && Reaches(start, Snapshot()) && Snapshot().Pc(t) == RemoveWait(p) && lock.None?
      modifies this
      ensures Valid() && Reaches(start, Snapshot()) && Snapshot().Pc(t) == RemoveLocked(p)
    {
      Advance(start, Snapshot(), Label.LockRemove(t));
      lock, threads := Some(t), threads[t := RemoveLocked(p)];
      Interfere(start, t);
    }

    method FindRemove(ghost start: State, ghost t: Tid, p: ProxyId) returns (entry: Option<ProxyId>)
      requires Valid() && Reaches(start, Snapshot()) && Snapshot().Pc(t) == RemoveLocked(p)
      modifies this
      ensures Valid() && Reaches(start, Snapshot())
      ensures Snapshot().Pc(t) == if entry.Some? then RemoveFound(p, entry.value) else RemoveUnlock(p)
    {
      Advance(start, Snapshot(), Label.FindRemove(t));
      var key := Key(proxies[p].tag, objects[proxies[p].impl].addr);
      entry := if key in mapping then Some(mapping[key]) else None;
      threads := threads[t := if entry.Some? then RemoveFound(p, entry.value) else RemoveUnlock(p)];
      Interfere(start, t);
    }

    method CheckExpired(ghost start: State, ghost t: Tid, ghost p: ProxyId, entry: ProxyId) returns (expired: bool)
      requires Valid() && Reaches(start, Snapshot()) && Snapshot().Pc(t) == RemoveFound(p, entry)
      modifies this
      ensures Valid() && Reaches(start, Snapshot())
      ensures Snapshot().Pc(t) == if expired then RemoveErase(p, entry) else RemoveUnlock(p)
    {
      Advance(start, Snapshot(), Label.CheckExpired(t));
      expired := entry !in proxies || proxies[entry].status != Live;
      threads := threads[t := if expired then RemoveErase(p, entry) else RemoveUnlock(p)];
      Interfere(start, t);
    }

    method Erase(ghost start: State, ghost t: Tid, p: ProxyId, ghost entry: ProxyId)
      requires Valid() && Reaches(start, Snapshot()) && Snapshot().Pc(t) == RemoveErase(p, entry)
      modifies this
      ensures Valid() && Reaches(start, Snapshot()) && Snapshot().Pc(t) == RemoveUnlock(p)
    {
      Advance(start, Snapshot(), Label.Erase(t));
      mapping := mapping - {Key(proxies[p].tag, objects[proxies[p].impl].addr)};
      threads := threads[t := RemoveUnlock(p)];
      Interfere(start, t);
    }

    /** `remove` for the handle of `p`, from the moment its thread is granted the mutex: afterwards no entry
        leads to `p`, and every live proxy that nobody is still creating is mapped. */
    method Remove(ghost t: Tid, p: ProxyId)
      requires Valid() && Snapshot().Pc(t) == RemoveWait(p) && lock.None?
      modifies this
      ensures Valid() && Reaches(old(Snapshot()), Snapshot()) && Snapshot().Pc(t) == RemoveDone(p) && lock.None?
      ensures forall k :: k in mapping ==> mapping[k] != p
      ensures forall q: ProxyId :: Snapshot().store.Is(q, Live) ==> IsMapped(Snapshot().store, q)
    {
      ghost var start := Snapshot();
      Stay(start);
      LockRemove(start, t, p);
      var entry := FindRemove(start, t, p);
      if entry.Some? {
        var expired := CheckExpired(start, t, p, entry.value);
        if expired {
          Erase(start, t, p, entry.value);
        }
      }
      UnlockRemove(start, t, p);
      RemovedIsGone(Snapshot(), t);
    }

    /** Releasing the mutex ends `remove`. */
    method UnlockRemove(ghost start: State, ghost t: Tid, ghost p: ProxyId)
      requires Valid() && Reaches(start, Snapshot()) && Snapshot().Pc(t) == RemoveUnlock(p)
      modifies this
      ensures Valid() && Reaches(start, Snapshot()) && Snapshot().Pc(t) == RemoveDone(p) && lock.None?
    {
      Advance(start, Snapshot(), Label.UnlockRemove(t));
      lock, threads := None, threads[t := RemoveDone(p)];
    }

    lemma RemovedIsGone(s: State, t: Tid)
      requires Inv(s) && s.Pc(t).RemoveDone? && s.lock.None?
      ensures forall k :: k in s.store.mapping ==> s.store.mapping[k] != s.Pc(t).p
      ensures forall q: ProxyId :: s.store.Is(q, Live) ==> IsMapped(s.store, q)
    {
      assert PcOk(s.store, s.Pc(t));
    }
  }
}

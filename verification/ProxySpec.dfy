/**
  What the proxy cache is for, as an atomic specification: an object has at most one live proxy under a tag;
  asking for it gives that proxy while it lives and a fresh one otherwise. Every run of the concurrent cache
  is a run of this specification, and every `get` takes effect once, between its call and its return.
 */
module ProxySpec {
  import opened Options
  import opened ProxyCache

  datatype Spec = Spec(live: map<(Tag, ObjId), ProxyId>, used: set<ProxyId>)

  datatype Event =
    | Got(tag: Tag, impl: ObjId, p: ProxyId)
    | Died(tag: Tag, impl: ObjId, p: ProxyId)
    | Silent

  const EMPTY := Spec(map[], {})

  ghost predicate SpecStep(a: Spec, e: Event, a': Spec)
  {
    match e
    case Got(tag, impl, p) =>
      if (tag, impl) in a.live then
        p == a.live[(tag, impl)] && a' == a
      else
        p !in a.used && a' == Spec(a.live[(tag, impl) := p], a.used + {p})
    case Died(tag, impl, p) =>
      (tag, impl) in a.live && a.live[(tag, impl)] == p && a' == a.(live := a.live - {(tag, impl)})
    case Silent => a' == a
  }

  /** The object a proxy stands for, and the tag under which it does. */
  function NameOf(m: Store, p: ProxyId): (Tag, ObjId)
    requires p in m.proxies
  {
    (m.proxies[p].tag, m.proxies[p].impl)
  }

  ghost predicate LiveNamesDiffer(m: Store)
  {
    forall p: ProxyId, q: ProxyId ::
      m.Is(p, Live) && m.Is(q, Live) && NameOf(m, p) == NameOf(m, q) ==> p == q
  }

  /** The live proxies of a store, by name. */
  ghost function Abs(m: Store): Spec
    requires LiveNamesDiffer(m)
  {
    Spec(map p: ProxyId | p in m.proxies && m.Is(p, Live) :: NameOf(m, p) := p, m.proxies.Keys)
  }

  /** What a step of the cache is to the specification: `get` takes effect when it upgrades the weak reference
      it found, or else when it allocates; expiry is what it says; everything else is internal. */
  function EventOf(s: State, l: Label): Event
    requires Enabled(s, l)
  {
    match l
    case Upgrade(t) =>
      var GetFound(tag, impl, entry) := s.Pc(t);
      if s.store.Is(entry, Live) then Got(tag, impl, entry) else Silent
    case Alloc(t, p) => Got(s.Pc(t).tag, s.Pc(t).impl, p)
    case Expire(p) => Died(s.store.proxies[p].tag, s.store.proxies[p].impl, p)
    case _ => Silent
  }

  lemma InvNamesDiffer(s: State)
    requires Inv(s)
    ensures LiveNamesDiffer(s.store)
  {
  }

  lemma AbsLive(m: Store, p: ProxyId)
    requires LiveNamesDiffer(m) && m.Is(p, Live)
    ensures NameOf(m, p) in Abs(m).live && Abs(m).live[NameOf(m, p)] == p
  {
  }

  lemma AbsOnlyLive(m: Store, name: (Tag, ObjId))
    requires LiveNamesDiffer(m) && name in Abs(m).live
    ensures var p := Abs(m).live[name]; m.Is(p, Live) && NameOf(m, p) == name
  {
  }

  /** The specification does not see anything but which proxies live. */
  lemma AbsSame(m: Store, m': Store)
    requires LiveNamesDiffer(m) && LiveNamesDiffer(m') && m'.proxies == m.proxies
    ensures Abs(m) == Abs(m')
  {
  }

  lemma AbsDestroyed(m: Store, p: ProxyId)
    requires LiveNamesDiffer(m) && m.Is(p, Expired) && LiveNamesDiffer(m.SetStatus(p, Destroyed))
    ensures Abs(m.SetStatus(p, Destroyed)) == Abs(m)
  {
    var m' := m.SetStatus(p, Destroyed);
    forall name | name in Abs(m).live || name in Abs(m').live
      ensures name in Abs(m).live && name in Abs(m').live && Abs(m).live[name] == Abs(m').live[name]
    {
      if name in Abs(m).live {
        AbsOnlyLive(m, name);
        AbsLive(m', Abs(m).live[name]);
      } else {
        AbsOnlyLive(m', name);
        AbsLive(m, Abs(m').live[name]);
      }
    }
  }

  lemma AbsExpiredName(m: Store, p: ProxyId, name: (Tag, ObjId))
    requires LiveNamesDiffer(m) && m.Is(p, Live) && LiveNamesDiffer(m.SetStatus(p, Expired))
    ensures var live, live' := Abs(m).live, Abs(m.SetStatus(p, Expired)).live;
            && (name in live' <==> name in live && name != NameOf(m, p))
            && (name in live' ==> live'[name] == live[name])
  {
    var m' := m.SetStatus(p, Expired);
    AbsLive(m, p);
    if name in Abs(m').live {
      AbsOnlyLive(m', name);
      AbsLive(m, Abs(m').live[name]);
    }
    if name in Abs(m).live && name != NameOf(m, p) {
      AbsOnlyLive(m, name);
      AbsLive(m', Abs(m).live[name]);
    }
  }

  lemma MapWithout<K, V>(m: map<K, V>, m': map<K, V>, k: K)
    requires forall x :: (x in m' <==> x in m && x != k) && (x in m' ==> m'[x] == m[x])
    ensures m' == m - {k}
  {
  }

  lemma AbsExpired(m: Store, p: ProxyId)
    requires LiveNamesDiffer(m) && m.Is(p, Live) && LiveNamesDiffer(m.SetStatus(p, Expired))
    ensures SpecStep(Abs(m), Died(m.proxies[p].tag, m.proxies[p].impl, p), Abs(m.SetStatus(p, Expired)))
  {
    var live, live', died := Abs(m).live, Abs(m.SetStatus(p, Expired)).live, NameOf(m, p);
    forall name
      ensures (name in live' <==> name in live && name != died) && (name in live' ==> live'[name] == live[name])
    {
      AbsExpiredName(m, p, name);
    }
    MapWithout(live, live', died);
    AbsLive(m, p);
  }

  lemma AbsAllocated(m: Store, p: ProxyId, tag: Tag, o: ObjId)
    requires LiveNamesDiffer(m) && p !in m.proxies
    requires LiveNamesDiffer(m.(proxies := m.proxies[p := Proxy(tag, o, Live)]))
    ensures SpecStep(Abs(m), Got(tag, o, p), Abs(m.(proxies := m.proxies[p := Proxy(tag, o, Live)])))
  {
    var m' := m.(proxies := m.proxies[p := Proxy(tag, o, Live)]);
    AbsLive(m', p);
    forall name
      ensures name in Abs(m).live ==>
        name != (tag, o) && name in Abs(m').live && Abs(m').live[name] == Abs(m).live[name]
      ensures name in Abs(m').live && name != (tag, o) ==> name in Abs(m).live
    {
      if name in Abs(m).live {
        AbsOnlyLive(m, name);
        AbsLive(m', Abs(m).live[name]);
      }
      if name in Abs(m').live && name != (tag, o) {
        AbsOnlyLive(m', name);
        AbsLive(m, Abs(m').live[name]);
      }
    }
    assert Abs(m').live == Abs(m).live[(tag, o) := p];
  }

  /** A step of the cache is a step of the specification: the cases by what changes in the store. */
  lemma RefinesUpgrade(s: State, l: Label)
    requires l.Upgrade? && Inv(s) && Enabled(s, l) && LiveNamesDiffer(s.store)
    ensures Apply(s, l).store == s.store && SpecStep(Abs(s.store), EventOf(s, l), Abs(s.store))
  {
    var pc := s.Pc(l.t);
    assert PcOk(s.store, pc);
    if s.store.Is(pc.entry, Live) { AbsLive(s.store, pc.entry); }
  }

  lemma StoreChange(s: State, l: Label)
    requires Enabled(s, l) && !l.Alloc? && !l.Expire? && !l.DropImpl?
    ensures Apply(s, l).store.proxies == s.store.proxies
  {
  }

  /** Every step of the cache is a step of the specification. */
  lemma RefinesStep(s: State, l: Label)
    requires Inv(s) && Enabled(s, l)
    ensures Inv(Apply(s, l)) && LiveNamesDiffer(s.store) && LiveNamesDiffer(Apply(s, l).store)
    ensures SpecStep(Abs(s.store), EventOf(s, l), Abs(Apply(s, l).store))
  {
    InvStep(s, l);
    InvNamesDiffer(s);
    InvNamesDiffer(Apply(s, l));
    match l
    case Alloc(t, p) => AbsAllocated(s.store, p, s.Pc(t).tag, s.Pc(t).impl);
    case Expire(p) => AbsExpired(s.store, p);
    case DropImpl(t) => assert PcOk(s.store, s.Pc(t)); AbsDestroyed(s.store, s.Pc(t).p);
    case Upgrade(_) => RefinesUpgrade(s, l);
    case _ => StoreChange(s, l); AbsSame(s.store, Apply(s, l).store);
  }

  function Trace(s: State, ls: seq<Label>): seq<Event>
    requires Exec(s, ls).Some?
  {
    if ls == [] then [] else
      var before := ls[..|ls| - 1];
      Trace(s, before) + [EventOf(Exec(s, before).value, ls[|ls| - 1])]
  }

  function Front(es: seq<Event>): seq<Event>
    requires es != []
  {
    es[..|es| - 1]
  }

  /** The specification can go from `a` to `a'` by the events `es`. */
  ghost predicate SpecRun(a: Spec, es: seq<Event>, a': Spec)
    decreases |es|
  {
    if es == [] then a' == a else
      exists mid :: SpecRun(a, Front(es), mid) && SpecStep(mid, es[|es| - 1], a')
  }

  /** Every run of the cache, whatever the interleaving, is a run of the specification. */
  lemma {:induction false} RefinesRun(ls: seq<Label>)
    requires Exec(INIT, ls).Some?
    ensures Inv(Exec(INIT, ls).value) && LiveNamesDiffer(Exec(INIT, ls).value.store)
    ensures SpecRun(EMPTY, Trace(INIT, ls), Abs(Exec(INIT, ls).value.store))
  {
    if ls == [] {
      InvInit();
      assert Abs(INIT.store).live == map[];
    } else {
      var before := ls[..|ls| - 1];
      var s := Exec(INIT, before).value;
      RefinesRun(before);
      RefinesStep(s, ls[|ls| - 1]);
      assert Front(Trace(INIT, ls)) == Trace(INIT, before);
    }
  }

  // ---------------------------------------------------------------------------------------------
  // Each get takes effect exactly once, between its call and its return
  // ---------------------------------------------------------------------------------------------

  /** The thread that makes the step, if it is not the environment. */
  function By(l: Label): Option<Tid>
  {
    match l
    case Expire(_) => None
    case NewObject(_, _) => None
    case FreeObject(_) => None
    case _ => Some(l.t)
  }

  /** The event of the step `ls[i]` in a run from the beginning. */
  function EventAt(ls: seq<Label>, i: nat): Event
    requires i < |ls|
  {
    var s := Exec(INIT, ls[..i]);
    if s.Some? && Enabled(s.value, ls[i]) then EventOf(s.value, ls[i]) else Silent
  }

  /** Thread `t` calls `get` at `call` and has not called it again since. */
  predicate LastCall(ls: seq<Label>, call: nat, t: Tid, tag: Tag, impl: ObjId)
  {
    && call < |ls| && ls[call] == CallGet(t, tag, impl)
    && forall j :: call < j < |ls| ==> !(ls[j].CallGet? && ls[j].t == t)
  }

  /** A `get` of thread `t` takes effect at step `i`. */
  predicate TakesEffect(ls: seq<Label>, i: nat, t: Tid)
    requires i < |ls|
  {
    By(ls[i]) == Some(t) && EventAt(ls, i).Got?
  }

  predicate NoEffectAfter(ls: seq<Label>, i: nat, t: Tid)
  {
    forall j: nat :: i < j < |ls| ==> !TakesEffect(ls, j, t)
  }

  /** The `get` that thread `t` is executing took effect at `got`, once, with result `p`. */
  predicate TookEffectOnce(ls: seq<Label>, call: nat, got: nat, t: Tid, tag: Tag, impl: ObjId, p: ProxyId)
  {
    && call < got < |ls| && By(ls[got]) == Some(t) && EventAt(ls, got) == Got(tag, impl, p)
    && forall j: nat :: call < j < |ls| && j != got ==> !TakesEffect(ls, j, t)
  }

  lemma OthersKeepPc(s: State, l: Label, t: Tid)
    requires Enabled(s, l) && By(l) != Some(t)
    ensures Apply(s, l).Pc(t) == s.Pc(t)
  {
  }

  /** How a thread's own step moves it through `get`. */
  lemma OwnStepInGet(s: State, l: Label, t: Tid)
    requires Enabled(s, l) && By(l) == Some(t) && Apply(s, l).Pc(t).IsGet()
    ensures var pc, pc' := s.Pc(t), Apply(s, l).Pc(t);
            if l.CallGet? then
              pc' == GetWait(l.tag, l.impl)
            else
              && pc.IsGet() && !pc.GetReturn? && (pc.tag, pc.impl) == (pc'.tag, pc'.impl)
              && (EventOf(s, l).Got? <==> !Decided(pc) && Decided(pc'))
              && (EventOf(s, l).Got? ==> EventOf(s, l) == Got(pc.tag, pc.impl, pc'.p))
              && (Decided(pc) ==> Decided(pc') && pc'.p == pc.p)
              && (Decided(pc') && !EventOf(s, l).Got? ==> Decided(pc))
  {
  }

  /** The result of the `get` is determined. */
  predicate Decided(pc: Pc) { pc.GetEmplace? || pc.GetReturn? }

  lemma PrefixOfPrefix(ls: seq<Label>, i: nat, t: Tid)
    requires i < |ls| - 1
    ensures EventAt(ls, i) == EventAt(ls[..|ls| - 1], i)
    ensures TakesEffect(ls, i, t) <==> TakesEffect(ls[..|ls| - 1], i, t)
  {
    assert ls[..i] == ls[..|ls| - 1][..i];
  }

  lemma PrefixEffects(ls: seq<Label>, t: Tid)
    requires ls != []
    ensures forall i: nat :: i < |ls| - 1 ==> (TakesEffect(ls, i, t) <==> TakesEffect(ls[..|ls| - 1], i, t))
  {
    forall i: nat | i < |ls| - 1
      ensures TakesEffect(ls, i, t) <==> TakesEffect(ls[..|ls| - 1], i, t)
    {
      PrefixOfPrefix(ls, i, t);
    }
  }

  /** A step that is no effect of `t` leaves what was established before. */
  lemma ExtendWithoutEffect(ls: seq<Label>, call: nat, got: nat, t: Tid, tag: Tag, impl: ObjId, p: ProxyId)
    requires ls != [] && !TakesEffect(ls, |ls| - 1, t)
    ensures var before := ls[..|ls| - 1];
            && (TookEffectOnce(before, call, got, t, tag, impl, p) ==> TookEffectOnce(ls, call, got, t, tag, impl, p))
            && (NoEffectAfter(before, call, t) ==> NoEffectAfter(ls, call, t))
  {
    PrefixEffects(ls, t);
    if got < |ls| - 1 { PrefixOfPrefix(ls, got, t); }
  }

  lemma ExtendWithEffect(ls: seq<Label>, call: nat, t: Tid, tag: Tag, impl: ObjId, p: ProxyId)
    requires ls != [] && call < |ls| - 1 && NoEffectAfter(ls[..|ls| - 1], call, t)
    requires By(ls[|ls| - 1]) == Some(t) && EventAt(ls, |ls| - 1) == Got(tag, impl, p)
    ensures TookEffectOnce(ls, call, |ls| - 1, t, tag, impl, p)
  {
    PrefixEffects(ls, t);
  }

  lemma ExtendCall(ls: seq<Label>, call: nat, t: Tid, tag: Tag, impl: ObjId)
    requires ls != [] && LastCall(ls[..|ls| - 1], call, t, tag, impl)
    requires var l := ls[|ls| - 1]; !(l.CallGet? && l.t == t)
    ensures LastCall(ls, call, t, tag, impl)
  {
  }

  /** Where a thread executes `get`, it called it with these arguments, and once the result is determined the
      call has taken effect exactly once. */
  lemma {:induction false} GetInProgress(ls: seq<Label>, t: Tid) returns (call: nat, got: nat)
    requires Exec(INIT, ls).Some? && Exec(INIT, ls).value.Pc(t).IsGet()
    ensures var pc := Exec(INIT, ls).value.Pc(t);
            && LastCall(ls, call, t, pc.tag, pc.impl)
            && (Decided(pc) ==> TookEffectOnce(ls, call, got, t, pc.tag, pc.impl, pc.p))
            && (!Decided(pc) ==> NoEffectAfter(ls, call, t))
    decreases |ls|
  {
    var before, l := ls[..|ls| - 1], ls[|ls| - 1];
    var s := Exec(INIT, before).value;
    var pc := Exec(INIT, ls).value.Pc(t);
    assert EventAt(ls, |before|) == EventOf(s, l);
    if By(l) != Some(t) {
      OthersKeepPc(s, l, t);
      call, got := GetInProgress(before, t);
      ExtendCall(ls, call, t, pc.tag, pc.impl);
      ExtendWithoutEffect(ls, call, got, t, pc.tag, pc.impl, if Decided(pc) then pc.p else 0);
    } else {
      OwnStepInGet(s, l, t);
      if l.CallGet? {
        call, got := |before|, 0;
      } else {
        call, got := GetInProgress(before, t);
        ExtendCall(ls, call, t, pc.tag, pc.impl);
        if EventOf(s, l).Got? {
          got := |before|;
          ExtendWithEffect(ls, call, t, pc.tag, pc.impl, pc.p);
        } else {
          ExtendWithoutEffect(ls, call, got, t, pc.tag, pc.impl, if Decided(pc) then pc.p else 0);
        }
      }
    }
  }

  /** Linearisability: a `get` that returns `p` took effect exactly once between its call and its return, as
      the atomic operation of the specification with that result. */
  lemma GetLinearises(ls: seq<Label>, t: Tid, tag: Tag, impl: ObjId, p: ProxyId) returns (call: nat, got: nat)
    requires Exec(INIT, ls).Some? && Exec(INIT, ls).value.Pc(t) == GetReturn(tag, impl, p)
    ensures LastCall(ls, call, t, tag, impl) && TookEffectOnce(ls, call, got, t, tag, impl, p)
    ensures |Trace(INIT, ls)| == |ls| && Trace(INIT, ls)[got] == Got(tag, impl, p)
  {
    call, got := GetInProgress(ls, t);
    TraceAt(ls, got);
  }

  lemma {:induction false} TraceAt(ls: seq<Label>, i: nat)
    requires Exec(INIT, ls).Some? && i < |ls|
    ensures |Trace(INIT, ls)| == |ls| && Trace(INIT, ls)[i] == EventAt(ls, i)
  {
    var before := ls[..|ls| - 1];
    if i < |before| {
      TraceAt(before, i);
      assert ls[..i] == before[..i];
    } else {
      TraceLength(before);
    }
  }

  lemma {:induction false} TraceLength(ls: seq<Label>)
    requires Exec(INIT, ls).Some?
    ensures |Trace(INIT, ls)| == |ls|
  {
    if ls != [] { TraceLength(ls[..|ls| - 1]); }
  }
}

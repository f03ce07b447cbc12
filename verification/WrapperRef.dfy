/**
  The reference count of a wrapper: an atomic counter of the width of a `size_t`, which starts at one. An owner is
  one pointer that stands for one reference; who holds it, and in which thread, makes no difference. Dropping a
  reference and deleting the wrapper are two steps, with other threads in between.
 */
module WrapperRef {
  import opened Options

  type Owner = nat

  /** The counter counts modulo `modulus`. `deleting` are those whose decrement returned one and who have not called
      `delete` yet. */
  datatype State = State(modulus: nat, refCount: nat, owners: set<Owner>, deleting: set<Owner>, deletions: nat)

  function Wrapped(modulus: nat): State { State(modulus, 1, {0}, {}, 0) }

  datatype Step =
    | Use(who: Owner)
    | AddRef(who: Owner, other: Owner)
    | FetchSub(who: Owner)
    | Delete(who: Owner)

  /** Only a current owner uses the wrapper, or makes another owner. */
  predicate Enabled(s: State, l: Step)
  {
    match l
    case Use(who) => who in s.owners
    case AddRef(who, other) => who in s.owners && other !in s.owners && other !in s.deleting
    case FetchSub(who) => who in s.owners
    case Delete(who) => who in s.deleting
  }

  function Apply(s: State, l: Step): State
    requires Enabled(s, l) && s.modulus > 1
  {
    match l
    case Use(_) => s
    case AddRef(_, other) => s.(refCount := (s.refCount + 1) % s.modulus, owners := s.owners + {other})
    case FetchSub(who) =>
      s.(refCount := (s.refCount + s.modulus - 1) % s.modulus, owners := s.owners - {who},
         deleting := if s.refCount == 1 then s.deleting + {who} else s.deleting)
    case Delete(who) => s.(deleting := s.deleting - {who}, deletions := s.deletions + 1)
  }

  function Exec(s: State, ls: seq<Step>): (r: Option<State>)
    requires s.modulus > 1
    ensures r.Some? ==> r.value.modulus == s.modulus
  {
    if ls == [] then Some(s) else
      match Exec(s, ls[..|ls| - 1])
      case None => None
      case Some(m) => if Enabled(m, ls[|ls| - 1]) then Some(Apply(m, ls[|ls| - 1])) else None
  }

  /** There are never so many owners that the counter wraps around. */
  ghost predicate Bounded(m: nat, ls: seq<Step>)
    requires m > 1
  {
    forall i: nat :: i <= |ls| ==> var s := Exec(Wrapped(m), ls[..i]); s.Some? ==> |s.value.owners| < m
  }

  predicate Inv(s: State)
  {
    && s.modulus > 1 && s.refCount == |s.owners| < s.modulus
    && |s.deleting| + s.deletions == if s.owners == {} then 1 else 0
  }

  lemma ModulusOnce(m: nat, n: nat)
    requires m > 1
    ensures n < m ==> n % m == n
    ensures m <= n < 2 * m ==> n % m == n - m
  {
    if m <= n < 2 * m {
      Remainder(m, n, 1, n - m);
    }
  }

  lemma Remainder(m: nat, n: nat, q: int, r: int)
    requires m > 0 && n == q * m + r && 0 <= r < m
    ensures n % m == r
  {
    var q': int, r': int := n / m, n % m;
    assert n == q' * m + r' && (q - q') * m == r' - r;
    if q != q' {
      Multiple(q - q', m);
    }
  }

  lemma Multiple(k: int, m: int)
    requires k != 0 && m >= 0
    ensures k * m >= m || k * m <= -m
  {
  }

  lemma InvStep(s: State, l: Step)
    requires Inv(s) && Enabled(s, l) && |Apply(s, l).owners| < s.modulus
    ensures Inv(Apply(s, l))
  {
    match l
    case Use(_) =>
    case AddRef(_, other) => ModulusOnce(s.modulus, s.refCount + 1);
    case FetchSub(who) =>
      ModulusOnce(s.modulus, s.refCount + s.modulus - 1);
      assert |s.owners - {who}| == |s.owners| - 1;
      assert s.owners - {who} == {} <==> |s.owners| == 1;
      assert |s.deleting| == 0 && s.deleting == {};
    case Delete(who) => assert |s.deleting - {who}| == |s.deleting| - 1;
  }

  lemma {:induction false} InvRun(m: nat, ls: seq<Step>)
    requires m > 1 && Exec(Wrapped(m), ls).Some? && Bounded(m, ls)
    ensures Inv(Exec(Wrapped(m), ls).value)
    decreases |ls|
  {
    if ls != [] {
      var before := ls[..|ls| - 1];
      assert forall i: nat :: i <= |before| ==> before[..i] == ls[..i];
      InvRun(m, before);
      assert ls[..|ls|] == ls;
      InvStep(Exec(Wrapped(m), before).value, ls[|ls| - 1]);
    }
  }

  /** In any run the count is the number of owners, and nobody touches the wrapper after its deletion: each step
      that is possible, the deletion too, happens to a wrapper not deleted yet. */
  lemma CountsOwnersAndNeverUsesAfterDelete(m: nat, ls: seq<Step>, l: Step)
    requires m > 1 && Exec(Wrapped(m), ls).Some? && Bounded(m, ls)
    ensures var s := Exec(Wrapped(m), ls).value;
            && s.refCount == |s.owners|
            && s.deletions <= 1
            && (s.deletions == 1 ==> s.owners == {} && s.deleting == {})
            && (Enabled(s, l) ==> s.deletions == 0)
  {
    InvRun(m, ls);
  }

  /** When all owners have dropped their reference and have returned, the wrapper has been deleted once. */
  lemma DeletedExactlyOnce(m: nat, ls: seq<Step>)
    requires m > 1 && Exec(Wrapped(m), ls).Some? && Bounded(m, ls)
    ensures var s := Exec(Wrapped(m), ls).value;
            s.deleting == {} ==> s.deletions == if s.owners == {} then 1 else 0
  {
    InvRun(m, ls);
  }

  lemma DeletingAfterStep(s: State, l: Step, o: Owner)
    requires Inv(s) && Enabled(s, l) && Inv(Apply(s, l)) && o in Apply(s, l).deleting
    ensures l == FetchSub(o) && Apply(s, l).owners == {}
  {
    var s' := Apply(s, l);
    assert |s'.deleting| == 1 && s'.owners == {};
    assert |s.deleting - {o}| == |s.deleting| - if o in s.deleting then 1 else 0;
  }

  /** Whoever deletes the wrapper is the one who dropped the last reference, and between the two nobody could do
      anything with it. */
  lemma LastDropperDeletes(m: nat, ls: seq<Step>, o: Owner)
    requires m > 1 && Exec(Wrapped(m), ls + [Delete(o)]).Some? && Bounded(m, ls)
    ensures ls != [] && ls[|ls| - 1] == FetchSub(o) && Exec(Wrapped(m), ls).value.owners == {}
  {
    assert (ls + [Delete(o)])[..|ls|] == ls;
    InvRun(m, ls);
    assert ls != [];
    BoundedBefore(m, ls);
    InvRun(m, ls[..|ls| - 1]);
    DeletingAfterStep(Exec(Wrapped(m), ls[..|ls| - 1]).value, ls[|ls| - 1], o);
  }

  lemma BoundedBefore(m: nat, ls: seq<Step>)
    requires m > 1 && Bounded(m, ls) && ls != []
    ensures Bounded(m, ls[..|ls| - 1])
  {
    var before := ls[..|ls| - 1];
    assert forall i: nat :: i <= |before| ==> before[..i] == ls[..i];
  }

  // ---------------------------------------------------------------------------------------------
  // Without the bound
  // ---------------------------------------------------------------------------------------------

  lemma PlusOne(m: nat, a: nat, b: nat)
    requires m > 1 && a == b % m
    ensures (a + 1) % m == (b + 1) % m
  {
    var q := b / m;
    if a + 1 == m {
      Remainder(m, b + 1, q + 1, 0);
    } else {
      Remainder(m, b + 1, q, a + 1);
    }
    ModulusOnce(m, a + 1);
  }

  lemma MinusOne(m: nat, a: nat, b: nat)
    requires m > 1 && a == b % m && b > 0
    ensures (a + m - 1) % m == (b - 1) % m
  {
    var q := b / m;
    if a == 0 {
      assert q > 0;
      Remainder(m, b - 1, q - 1, m - 1);
    } else {
      Remainder(m, b - 1, q, a - 1);
    }
    ModulusOnce(m, a + m - 1);
  }

  /** The count is the number of owners modulo the counter's width, in any run at all. */
  lemma {:induction false} CountsModulo(m: nat, ls: seq<Step>)
    requires m > 1 && Exec(Wrapped(m), ls).Some?
    ensures var s := Exec(Wrapped(m), ls).value; s.refCount == |s.owners| % m
    decreases |ls|
  {
    if ls != [] {
      CountsModulo(m, ls[..|ls| - 1]);
      CountsModuloStep(Exec(Wrapped(m), ls[..|ls| - 1]).value, ls[|ls| - 1]);
    }
  }

  lemma CountsModuloStep(s: State, l: Step)
    requires s.modulus > 1 && Enabled(s, l) && s.refCount == |s.owners| % s.modulus
    ensures Apply(s, l).refCount == |Apply(s, l).owners| % s.modulus
  {
    if l.AddRef? {
      PlusOne(s.modulus, s.refCount, |s.owners|);
    } else if l.FetchSub? {
      assert |s.owners - {l.who}| == |s.owners| - 1;
      MinusOne(s.modulus, s.refCount, |s.owners|);
    }
  }

  /** Exactly when a decrement leads to deletion, however many owners there are: with no more than `m` of them,
      when it drops the last reference. */
  lemma DropDeletesIff(m: nat, ls: seq<Step>, who: Owner)
    requires m > 1 && Exec(Wrapped(m), ls).Some? && Enabled(Exec(Wrapped(m), ls).value, FetchSub(who))
    ensures var s := Exec(Wrapped(m), ls).value; var s' := Apply(s, FetchSub(who));
            && (s.refCount == 1 <==> |s'.owners| % m == 0)
            && (|s.owners| <= m ==> (s.refCount == 1 <==> s'.owners == {}))
  {
    CountsModulo(m, ls);
    var s := Exec(Wrapped(m), ls).value;
    assert |s.owners - {who}| == |s.owners| - 1;
    MinusOne(m, s.refCount, |s.owners|);
    ZeroIff(m, s.refCount);
    ModulusOnce(m, |s.owners| - 1);
  }

  lemma ZeroIff(m: nat, a: nat)
    requires a < m && m > 1
    ensures (a + m - 1) % m == 0 <==> a == 1
  {
    ModulusOnce(m, a + m - 1);
  }

  function Adds(n: nat): (ls: seq<Step>)
    ensures |ls| == n
  {
    if n == 0 then [] else Adds(n - 1) + [AddRef(0, n)]
  }

  lemma {:induction false} AfterAdds(m: nat, n: nat)
    requires m > 1
    ensures Exec(Wrapped(m), Adds(n)).Some?
    ensures var s := Exec(Wrapped(m), Adds(n)).value;
            && s.refCount == (n + 1) % m && |s.owners| == n + 1 && s.deleting == {} && s.deletions == 0
            && forall o: Owner :: o in s.owners <==> o <= n
  {
    if n > 0 {
      AfterAdds(m, n - 1);
      ExecOneMore(m, Adds(n - 1), AddRef(0, n));
      PlusOne(m, n % m, n);
    }
  }

  lemma ExecOneMore(m: nat, ls: seq<Step>, l: Step)
    requires m > 1 && Exec(Wrapped(m), ls).Some? && Enabled(Exec(Wrapped(m), ls).value, l)
    ensures Exec(Wrapped(m), ls + [l]) == Some(Apply(Exec(Wrapped(m), ls).value, l))
  {
    assert (ls + [l])[..|ls|] == ls;
  }

  /** With one owner more than the counter can tell from one, the first decrement deletes the wrapper under
      all the others. */
  lemma WrapAroundDeletesTooEarly(m: nat)
    requires m > 1
    ensures var run := Adds(m) + [FetchSub(0)] + [Delete(0)];
            && Exec(Wrapped(m), run).Some? && Exec(Wrapped(m), run).value.deletions == 1
            && Enabled(Exec(Wrapped(m), run).value, Use(1))
  {
    AfterAdds(m, m);
    Remainder(m, m + 1, 1, 1);
    ExecOneMore(m, Adds(m), FetchSub(0));
    ExecOneMore(m, Adds(m) + [FetchSub(0)], Delete(0));
  }

  // ---------------------------------------------------------------------------------------------
  // The functions themselves
  // ---------------------------------------------------------------------------------------------

  /** The step is not made by any of `ids`, nor does it make one of them an owner: no pointer of ours is involved. */
  predicate OfOthers(l: Step, ids: set<Owner>) { l.who !in ids && (l.AddRef? ==> l.other !in ids) }

  /** A step of others leaves our references and our pending deletions alone. */
  lemma OthersKeepOurs(s: State, l: Step, ids: set<Owner>)
    requires s.modulus > 1 && Enabled(s, l) && OfOthers(l, ids)
    ensures Apply(s, l).owners * ids == s.owners * ids && Apply(s, l).deleting * ids == s.deleting * ids
  {
  }

  class Wrapper {
    const modulus: nat
    var refCount: nat
    // Who has a reference is no part of the wrapper; it is kept here to say what the count means.
    var owners: set<Owner>
    var deleting: set<Owner>
    var deletions: nat

    function Snapshot(): State
      reads this
    {
      State(modulus, refCount, owners, deleting, deletions)
    }

    constructor (modulus: nat)
      requires modulus > 1
      ensures Snapshot() == Wrapped(modulus) && Inv(Snapshot())
    {
      this.modulus := modulus;
      refCount, owners, deleting, deletions := 1, {0}, {}, 0;
    }

    /** Some step of others, without overflow. */
    method OtherStep(ids: set<Owner>)
      requires Inv(Snapshot())
      modifies this
      ensures Inv(Snapshot()) && owners * ids == old(owners) * ids && deleting * ids == old(deleting) * ids
    {
      var l: Step := *;
      var s := Snapshot();
      if Enabled(s, l) && OfOthers(l, ids) && |Apply(s, l).owners| < modulus {
        InvStep(s, l);
        OthersKeepOurs(s, l, ids);
        var s' := Apply(s, l);
        refCount, owners, deleting, deletions := s'.refCount, s'.owners, s'.deleting, s'.deletions;
      }
    }

    /** Other threads act on their references. */
    method Interfere(ids: set<Owner>)
      requires Inv(Snapshot())
      modifies this
      ensures Inv(Snapshot()) && owners * ids == old(owners) * ids && deleting * ids == old(deleting) * ids
    {
      var steps: nat := *;
      while steps > 0
        invariant Inv(Snapshot()) && owners * ids == old(owners) * ids && deleting * ids == old(deleting) * ids
      {
        OtherStep(ids);
        steps := steps - 1;
      }
    }

    /** One of our references, and one more. `ids` are the pointers of this thread. */
    method AddReference(who: Owner, other: Owner, ids: set<Owner>)
      requires Inv(Snapshot()) && who in owners && who in ids && other !in owners && other in ids
      requires |owners| + 1 < modulus
      modifies this
      ensures Inv(Snapshot()) && owners * ids == old(owners) * ids + {other} && deletions == 0
    {
      ghost var s := Snapshot();
      InvStep(s, AddRef(who, other));
      refCount, owners := (refCount + 1) % modulus, owners + {other};
      assert Snapshot() == Apply(s, AddRef(who, other));
      Interfere(ids);
      assert who in owners * ids;
    }

    /** Deletes the wrapper exactly if this was the last reference, and then nothing of it is left. */
    method DropReference(who: Owner, ids: set<Owner>) returns (deleted: bool)
      requires Inv(Snapshot()) && who in owners && who in ids
      modifies this
      ensures Inv(Snapshot()) && owners * ids == old(owners) * ids - {who} && deleting * ids == {}
      ensures deleted <==> old(owners) == {who}
      ensures deleted ==> owners == {} && deleting == {} && deletions == 1
    {
      ghost var s := Snapshot();
      InvStep(s, FetchSub(who));
      LastOne(owners, who);
      assert deletions == 0 && |deleting| == 0;
      var ref := refCount;
      refCount, owners := (refCount + modulus - 1) % modulus, owners - {who};
      deleting := if ref == 1 then deleting + {who} else deleting;
      assert Snapshot() == Apply(s, FetchSub(who));
      Interfere(ids);
      deleted := ref == 1;
      if ref == 1 {
        ghost var s' := Snapshot();
        assert who in deleting * ids;
        InvStep(s', Delete(who));
        assert deletions == 0;
        deleting, deletions := deleting - {who}, deletions + 1;
        assert Snapshot() == Apply(s', Delete(who));
        assert |deleting| == 0;
      }
    }

    lemma LastOne(owners: set<Owner>, who: Owner)
      requires who in owners
      ensures |owners| == 1 <==> owners == {who}
    {
      assert |owners - {who}| == |owners| - 1;
      assert owners - {who} == {} <==> owners == {who};
    }
  }
}

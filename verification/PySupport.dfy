/** The counted registry that keeps handles alive while C++ holds them. Each method runs under the lock. */
module PySupport {
  type Ptr = nat

  class MultiSet {
    var dict: map<Ptr, nat>
    ghost var Contents: multiset<Ptr>

    ghost predicate Valid()
      reads this
    {
      && (forall p :: p in dict ==> 0 < dict[p])
      && forall p :: Contents[p] == if p in dict then dict[p] else 0
    }

    constructor ()
      ensures Valid() && Contents == multiset{}
    {
      dict, Contents := map[], multiset{};
    }

    method Add(item: Ptr)
      requires Valid()
      modifies this
      ensures Valid() && Contents == old(Contents) + multiset{item}
    {
      if item !in dict {
        dict := dict[item := 1];
      } else {
        dict := dict[item := dict[item] + 1];
      }
      Contents := Contents + multiset{item};
    }

    /** False when the assertion that the item is there fails; nothing changes then. */
    method Remove(item: Ptr) returns (asserted: bool)
      requires Valid()
      modifies this
      ensures Valid() && (asserted <==> item in old(Contents))
      ensures Contents == old(Contents) - multiset{item}
    {
      if item !in dict {
        return false;
      }
      dict := dict[item := dict[item] - 1];
      if dict[item] == 0 {
        dict := dict - {item};
      }
      Contents := Contents - multiset{item};
      return true;
    }

    /** The number of different items. */
    method Len() returns (n: nat)
      requires Valid()
      ensures n == 0 <==> Contents == multiset{}
      ensures n == |dict|
    {
      n := |dict|;
      if n == 0 {
        assert forall p :: p !in dict;
      } else {
        ghost var p :| p in dict;
        assert Contents[p] > 0;
      }
    }

    method Has(item: Ptr) returns (b: bool)
      requires Valid()
      ensures b <==> item in Contents
    {
      b := item in dict;
    }
  }
}

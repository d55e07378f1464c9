/** Which member of a ring answers for which ids, and how that changes as members come and go. */
module Ownership {
  import opened Circle
  import opened RingConvergence
  import opened RingLookup

  /** A member owns the arc that ends in it. */
  lemma OwnerByArc(members: set<Key>, p: Key, n: Key, id: Key)
    requires p in members && IsNext(members, p, n)
    ensures IsOwner(members, id, n) <==> InsideOrEnd(id, p, n)
  {
  }

  /** A newcomer n takes over (s, n] from the old owner s of n, and nothing else changes. */
  lemma OwnerAfterJoin(members: set<Key>, n: Key, s: Key, id: Key, m: Key)
    requires n !in members && IsOwner(members, n, s) && m in members + {n}
    ensures IsOwner(members + {n}, id, m) <==>
      if m == n then IsOwner(members, id, s) && InsideOrEnd(id, s, n)
      else IsOwner(members, id, m) && !(m == s && InsideOrEnd(id, s, n))
  {
  }

  /** What a leaver n owned falls to its successor s, and nothing else changes. */
  lemma OwnerAfterLeave(members: set<Key>, n: Key, s: Key, id: Key, m: Key)
    requires n in members && s != n && IsNext(members, n, s) && m in members - {n}
    ensures IsOwner(members - {n}, id, m) <==> IsOwner(members, id, m) || (m == s && IsOwner(members, id, n))
  {
    var rest := members - {n};
    assert s in rest && !Inside(m, n, s);
    if IsOwner(rest, id, m) {
      assert Gap(id, m) <= Gap(id, s);
      if !IsOwner(members, id, m) {
        assert Gap(id, n) < Gap(id, m);
      }
    }
  }
}

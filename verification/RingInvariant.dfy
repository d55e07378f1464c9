/** What every run of joins, stabilizations, notifications and finger repairs keeps. */
module RingInvariant {
  import opened Circle
  import opened Ring

  // ---------------------------------------------------------------- effect of each change

  /** The two networks differ in fingers 1 and up only. */
  ghost predicate SameShape(net: Net, net': Net)
    requires WellFormed(net)
  {
    && WellFormed(net')
    && net'.Keys == net.Keys
    && (forall k {:trigger Succ(net', k)} :: k in net ==> Succ(net', k) == Succ(net, k))
    && (forall k {:trigger net'[k]} :: k in net ==> net'[k].prev == net[k].prev)
  }

  /** s now has predecessor n; nothing else changed. */
  ghost predicate PrevSet(net: Net, net': Net, s: Key, n: Key)
    requires WellFormed(net)
  {
    && WellFormed(net')
    && net'.Keys == net.Keys
    && (forall k {:trigger Succ(net', k)} :: k in net ==> Succ(net', k) == Succ(net, k))
    && (forall k {:trigger net'[k]} :: k in net ==> net'[k].prev == if k == s then Some(n) else net[k].prev)
  }

  /** n now has successor p; nothing else changed. */
  ghost predicate SuccSet(net: Net, net': Net, n: Key, p: Key)
    requires WellFormed(net)
  {
    && WellFormed(net')
    && net'.Keys == net.Keys
    && (forall k {:trigger Succ(net', k)} :: k in net ==> Succ(net', k) == if k == n then p else Succ(net, k))
    && (forall k {:trigger net'[k]} :: k in net ==> net'[k].prev == net[k].prev)
  }

  /** n was added behind s; nothing else changed. */
  ghost predicate Added(net: Net, net': Net, n: Key, s: Key)
    requires WellFormed(net)
  {
    && WellFormed(net')
    && n !in net && net'.Keys == net.Keys + {n}
    && Succ(net', n) == s && net'[n].prev == None
    && (forall k {:trigger Succ(net', k)} :: k in net ==> Succ(net', k) == Succ(net, k))
    && (forall k {:trigger net'[k]} :: k in net ==> net'[k].prev == net[k].prev)
  }

  lemma PrevKeepsForm(net: Net, s: Key, n: Key)
    requires WellFormed(net) && s in net && n in net
    ensures WellFormed(net[s := net[s].(prev := Some(n))])
  {
    var net' := net[s := net[s].(prev := Some(n))];
    assert net'.Keys == net.Keys;
    forall k | k in net' ensures WellFormedAt(net', k) {
      assert WellFormedAt(net, k);
    }
  }

  lemma NotifiedEffect(net: Net, s: Key, n: Key)
    requires WellFormed(net) && s in net && n in net
    ensures var net' := Notified(net, s, n);
      if net[s].prev.None? || Inside(n, net[s].prev.value, s) then PrevSet(net, net', s, n) else net' == net
  {
    PrevKeepsForm(net, s, n);
    assert Notified(net, s, n).Keys == net.Keys;
  }

  lemma SetSuccEffect(net: Net, n: Key, target: Key)
    requires WellFormed(net) && n in net && target in net
    ensures SuccSet(net, SetSucc(net, n, target), n, target)
  {
    var net' := SetSucc(net, n, target);
    assert net'.Keys == net.Keys;
    forall k | k in net' ensures WellFormedAt(net', k) {
      assert WellFormedAt(net, k);
    }
  }

  lemma SetFingerEffect(net: Net, n: Key, i: nat, target: Key)
    requires WellFormed(net) && n in net && 1 <= i < KEY_BITS && target in net
    ensures SameShape(net, SetFinger(net, n, i, target))
  {
    var net' := SetFinger(net, n, i, target);
    assert net'.Keys == net.Keys;
    forall k | k in net' ensures WellFormedAt(net', k) {
      assert WellFormedAt(net, k);
    }
  }

  lemma EntryKeepsForm(net: Net, n: Key, i: nat, target: Key)
    requires WellFormed(net) && n in net && i < KEY_BITS && target in net
    ensures var net' := if i == 0 then SetSucc(net, n, target) else SetFinger(net, n, i, target);
      && WellFormed(net') && net'.Keys == net.Keys
      && |net[n].finger| == KEY_BITS - 1
      && (forall k {:trigger net'[k]} :: k in net && k != n ==> net'[k] == net[k])
      && net'[n] == if i == 0 then net[n].(succ := target)
                    else net[n].(finger := net[n].finger[i - 1 := Some(target)])
  {
    assert WellFormedAt(net, n);
    if i == 0 {
      SetSuccEffect(net, n, target);
    } else {
      SetFingerEffect(net, n, i, target);
    }
  }

  lemma AddedEffect(net: Net, n: Key, s: Key)
    requires WellFormed(net) && n !in net && s in net
    ensures Added(net, net[n := Peer(s, None, NoFingers())], n, s)
  {
    var net' := net[n := Peer(s, None, NoFingers())];
    assert net'.Keys == net.Keys + {n};
    forall k | k in net' ensures WellFormedAt(net', k) {
      if k != n {
        assert WellFormedAt(net, k);
      }
    }
  }

  // ---------------------------------------------------------------- arcs of successors

  /** Following successors from a reaches b without ever passing it. */
  ghost predicate ArcReaches(net: Net, a: Key, b: Key)
    requires WellFormed(net) && a in net
    decreases Dist(a, b)
  {
    var s := Succ(net, a);
    s == b || (Inside(s, a, b) && ArcReaches(net, s, b))
  }

  /** An arc only depends on the successors of the nodes it leaves. */
  lemma {:induction false} ArcFrame(net: Net, net': Net, a: Key, b: Key)
    requires WellFormed(net) && WellFormed(net') && a in net && net.Keys <= net'.Keys
    requires forall k :: k in net && Gap(a, k) < Dist(a, b) ==> Succ(net', k) == Succ(net, k)
    requires ArcReaches(net, a, b)
    ensures ArcReaches(net', a, b)
    decreases Dist(a, b)
  {
    var s := Succ(net, a);
    if s == b {
    } else {
      ArcFrame(net, net', s, b);
    }
  }

  lemma {:induction false} ArcJoin(net: Net, a: Key, b: Key, c: Key)
    requires WellFormed(net) && a in net && b in net
    requires Inside(b, a, c) && ArcReaches(net, a, b) && ArcReaches(net, b, c)
    ensures ArcReaches(net, a, c)
    decreases Dist(a, b)
  {
    var s := Succ(net, a);
    if s == b {
    } else {
      ArcJoin(net, s, b, c);
    }
  }

  /** Replacing n -> s by n -> p keeps every arc, when p lies on the way and leads to s. */
  lemma {:induction false} ArcDetour(net: Net, net': Net, n: Key, p: Key, a: Key, b: Key)
    requires WellFormed(net) && n in net && p in net && a in net
    requires SuccSet(net, net', n, p)
    requires Inside(p, n, Succ(net, n)) && ArcReaches(net, p, Succ(net, n))
    requires ArcReaches(net, a, b)
    ensures ArcReaches(net', a, b)
    decreases Dist(a, b)
  {
    var s := Succ(net, a);
    if s == b {
    } else {
      ArcDetour(net, net', n, p, s, b);
    }
    if a == n {
      ArcFrame(net, net', p, s);
      if s != b {
        ArcJoin(net', p, s, b);
      }
    }
  }

  // ---------------------------------------------------------------- the invariant

  /** No successor pointer jumps over the founder. */
  ghost predicate Anchored(net: Net, founder: Key)
    requires WellFormed(net)
  {
    && founder in net
    && forall n {:trigger Succ(net, n)} :: n in net ==> InsideOrEnd(Succ(net, n), n, founder)
  }

  /** Whoever is a successor knows a predecessor. */
  ghost predicate Told(net: Net)
    requires WellFormed(net)
  {
    forall n {:trigger Succ(net, n)} :: n in net ==> net[Succ(net, n)].prev.Some?
  }

  /** A known predecessor of s leads to s along successors, inside its arc. */
  ghost predicate LinkedAt(net: Net, s: Key)
    requires WellFormed(net) && s in net
  {
    net[s].prev.Some? ==> net[s].prev.value in net && ArcReaches(net, net[s].prev.value, s)
  }

  ghost predicate Linked(net: Net)
    requires WellFormed(net)
  {
    forall s {:trigger LinkedAt(net, s)} :: s in net ==> LinkedAt(net, s)
  }

  ghost predicate Inv(net: Net, founder: Key) {
    WellFormed(net) && Anchored(net, founder) && Told(net) && Linked(net)
  }

  lemma LinkedFrame(net: Net, net': Net, s: Key)
    requires WellFormed(net) && WellFormed(net') && Linked(net) && net.Keys <= net'.Keys
    requires forall k {:trigger Succ(net', k)} :: k in net ==> Succ(net', k) == Succ(net, k)
    requires s in net && net'[s].prev == net[s].prev
    ensures LinkedAt(net', s)
  {
    assert LinkedAt(net, s);
    if net[s].prev.Some? {
      ArcFrame(net, net', net[s].prev.value, s);
    }
  }

  lemma SameShapeKeeps(net: Net, net': Net, founder: Key)
    requires Inv(net, founder) && SameShape(net, net')
    ensures Inv(net', founder)
  {
    forall s | s in net' ensures LinkedAt(net', s) {
      LinkedFrame(net, net', s);
    }
  }

  lemma PrevSetKeeps(net: Net, net': Net, s: Key, n: Key)
    requires WellFormed(net) && Linked(net) && s in net && n in net && Succ(net, n) == s
    requires PrevSet(net, net', s, n)
    ensures Linked(net')
  {
    forall k | k in net' ensures LinkedAt(net', k) {
      if k != s {
        LinkedFrame(net, net', k);
      }
    }
  }

  lemma SuccSetKeeps(net: Net, net': Net, n: Key, p: Key)
    requires WellFormed(net) && Linked(net) && n in net && p in net
    requires SuccSet(net, net', n, p)
    requires Inside(p, n, Succ(net, n)) && ArcReaches(net, p, Succ(net, n))
    ensures Linked(net')
  {
    forall s | s in net' ensures LinkedAt(net', s) {
      assert LinkedAt(net, s);
      if net[s].prev.Some? {
        ArcDetour(net, net', n, p, net[s].prev.value, s);
      }
    }
  }

  lemma AddedKeeps(net: Net, net': Net, n: Key, s: Key)
    requires WellFormed(net) && Linked(net) && s in net && Added(net, net', n, s)
    ensures Linked(net')
  {
    forall k | k in net' ensures LinkedAt(net', k) {
      if k != n {
        LinkedFrame(net, net', k);
      }
    }
  }

  lemma FoundedInv(n: Key)
    ensures Inv(Founded(n), n)
  {
  }

  /** A notification by a node about its own successor. */
  lemma NotifyInv(net: Net, n: Key, founder: Key)
    requires WellFormed(net) && n in net && Anchored(net, founder) && Linked(net)
    requires forall k {:trigger Succ(net, k)} ::
      k in net && Succ(net, k) != Succ(net, n) ==> net[Succ(net, k)].prev.Some?
    ensures Inv(Notified(net, Succ(net, n), n), founder)
  {
    var s := Succ(net, n);
    NotifiedEffect(net, s, n);
    if net[s].prev.None? || Inside(n, net[s].prev.value, s) {
      PrevSetKeeps(net, Notified(net, s, n), s, n);
    }
  }

  /** Joining behind any member s with no founder in between, however s was found. */
  lemma JoinInv(net: Net, n: Key, s: Key, founder: Key)
    requires Inv(net, founder) && n !in net && s in net
    requires InsideOrEnd(s, n, founder)
    ensures Inv(JoinedBehind(net, n, s), founder)
  {
    var net1 := net[n := Peer(s, None, NoFingers())];
    AddedEffect(net, n, s);
    AddedKeeps(net, net1, n, s);
    NotifyInv(net1, n, founder);
  }

  lemma StabilizeInv(net: Net, n: Key, founder: Key)
    requires Inv(net, founder) && n in net
    ensures Inv(Stabilized(net, n), founder)
  {
    var s := Succ(net, n);
    var p := net[s].prev.value;
    assert LinkedAt(net, s);
    if Inside(p, n, s) {
      var net1 := SetSucc(net, n, p);
      SetSuccEffect(net, n, p);
      SuccSetKeeps(net, net1, n, p);
      NotifyInv(net1, n, founder);
    } else {
      NotifyInv(net, n, founder);
    }
  }

  /** A lookup never leads past the founder. */
  lemma LookupStopsBeforeFounder(net: Net, peer: Key, n: Key, founder: Key)
    requires WellFormed(net) && Anchored(net, founder) && peer in net && n !in net
    ensures InsideOrEnd(FindNext(net, peer, n), n, founder)
  {
  }

  lemma StepInv(net: Net, step: Step, founder: Key)
    requires Inv(net, founder)
    ensures Inv(Apply(net, step), founder)
  {
    match step
    case Join(n, peer) =>
      if peer in net && n !in net {
        LookupStopsBeforeFounder(net, peer, n, founder);
        JoinInv(net, n, FindNext(net, peer, n), founder);
      }
    case Stabilize(n) =>
      if n in net {
        StabilizeInv(net, n, founder);
      }
    case Notify(n) =>
      if n in net {
        NotifyInv(net, n, founder);
      }
    case FixFinger(n, i, start) =>
      if n in net && 1 <= i < KEY_BITS {
        SetFingerEffect(net, n, i, FindNext(net, n, start));
        SameShapeKeeps(net, Apply(net, step), founder);
      }
  }
}

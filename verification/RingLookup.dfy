/** Lookups: they end in every well-formed ring, agree on an ideal one, and survive a ring
    that changes under them. */
module RingLookup {
  import opened Circle
  import opened Ring
  import opened RingInvariant
  import opened RingRuns
  import opened RingConvergence

  /** While the loop has not arrived, the current node always knows a closer one: its
      successor qualifies, so the not-found branch is never taken. */
  lemma PassProgress(net: Net, current: Key, next: Key, id: Key)
    requires WellFormed(net) && current in net && current != id
    requires InsideOrEnd(Succ(net, current), current, next)
    requires !InsideOrEnd(id, current, next)
    ensures var closer := ClosestPreceding(net, current, id);
      closer.Some? && closer.value in net && closer.value != id && Dist(closer.value, id) < Dist(current, id)
  {
  }

  /** One pass of the loop in an unchanging ring does not change where it ends. */
  lemma PassKeepsResult(net: Net, current: Key, id: Key)
    requires WellFormed(net) && current in net && current != id
    requires !InsideOrEnd(id, current, Succ(net, current))
    ensures var closer := ClosestPreceding(net, current, id);
      && closer.Some? && closer.value in net && closer.value != id
      && Dist(closer.value, id) < Dist(current, id)
      && LookupPrev(net, current, id) == LookupPrev(net, closer.value, id)
  {
  }

  // ---------------------------------------------------------------- ideal rings

  /** s is the first member at or after id. */
  ghost predicate IsOwner(members: set<Key>, id: Key, s: Key) {
    s in members && forall m :: m in members ==> Gap(id, s) <= Gap(id, m)
  }

  lemma OwnerIsUnique(members: set<Key>, id: Key, s: Key, s': Key)
    requires IsOwner(members, id, s) && IsOwner(members, id, s')
    ensures s == s'
  {
  }

  lemma NextOwnsArc(members: set<Key>, c: Key, s: Key, id: Key)
    requires c in members && IsNext(members, c, s) && InsideOrEnd(id, c, s)
    ensures IsOwner(members, id, s)
    ensures forall m :: m in members ==> !Inside(m, c, id)
  {
  }

  /** On an ideal ring every other member finds the one owner of id. */
  lemma FindNextIsOwner(net: Net, n: Key, id: Key)
    requires Ideal(net) && n in net && n != id
    ensures IsOwner(net.Keys, id, FindNext(net, n, id))
  {
    var c := LookupPrev(net, n, id);
    assert IdealAt(net, c);
    NextOwnsArc(net.Keys, c, Succ(net, c), id);
  }

  /** On an ideal ring every member, the owner of the id included, finds the one predecessor. */
  lemma FindPrevIsPrev(net: Net, n: Key, id: Key)
    requires Ideal(net) && n in net
    ensures FindPrev(net, n, id).Some?
    ensures FindPrev(net, n, id).value in net && IsNext(net.Keys + {id}, FindPrev(net, n, id).value, id)
  {
    assert WellFormedAt(net, n) && IdealAt(net, n);
    var p := FindPrev(net, n, id).value;
    if n != id {
      assert IdealAt(net, p);
      NextOwnsArc(net.Keys, p, Succ(net, p), id);
    }
    forall m | m in net.Keys + {id} ensures !Inside(m, p, id) {
    }
  }

  lemma LookupsAgree(net: Net, n: Key, n': Key, id: Key)
    requires Ideal(net) && n in net && n' in net
    ensures FindPrev(net, n, id) == FindPrev(net, n', id)
    ensures n != id && n' != id ==> FindNext(net, n, id) == FindNext(net, n', id)
  {
    FindPrevIsPrev(net, n, id);
    FindPrevIsPrev(net, n', id);
    PrevIsUnique(net.Keys + {id}, id, FindPrev(net, n, id).value, FindPrev(net, n', id).value);
    if n != id && n' != id {
      FindNextIsOwner(net, n, id);
      FindNextIsOwner(net, n', id);
      OwnerIsUnique(net.Keys, id, FindNext(net, n, id), FindNext(net, n', id));
    }
  }

  /** Asked for its own id a node answers with its strict successor, which owns that id only
      when the node is alone; in every other case the answer is the owner. */
  lemma FindNextOwnsUnlessSelf(net: Net, n: Key, id: Key)
    requires Ideal(net) && n in net
    ensures IsOwner(net.Keys, id, FindNext(net, n, id)) <==> n != id || net.Keys == {n}
  {
    if n != id {
      FindNextIsOwner(net, n, id);
    } else {
      var s := Succ(net, n);
      assert IdealAt(net, n);
      assert Gap(id, n) == 0;
      if s == n {
        forall m | m in net ensures m == n {
          assert !Inside(m, n, s);
        }
        assert net.Keys == {n};
      }
    }
  }

  // ---------------------------------------------------------------- lookups in a changing ring

  lemma StepSuccCloser(net: Net, step: Step, founder: Key, n: Key)
    requires Inv(net, founder) && n in net
    ensures Inv(Apply(net, step), founder) && n in Apply(net, step)
    ensures InsideOrEnd(Succ(Apply(net, step), n), n, Succ(net, n))
  {
    StepInv(net, step, founder);
    match step
    case Join(k, peer) =>
      if peer in net && k !in net {
        var s := FindNext(net, peer, k);
        AddedEffect(net, k, s);
        NotifiedEffect(net[k := Peer(s, None, NoFingers())], s, k);
      }
    case Stabilize(k) =>
      if k in net {
        var s := Succ(net, k);
        assert LinkedAt(net, s);
        var p := net[s].prev.value;
        if Inside(p, k, s) {
          SetSuccEffect(net, k, p);
          NotifiedEffect(SetSucc(net, k, p), p, k);
        } else {
          NotifiedEffect(net, s, k);
        }
      }
    case Notify(k) =>
      if k in net {
        NotifiedEffect(net, Succ(net, k), k);
      }
    case FixFinger(k, i, start) =>
      if k in net && 1 <= i < KEY_BITS {
        SetFingerEffect(net, k, i, FindNext(net, k, start));
      }
  }

  /** Over any run a successor pointer only ever moves closer. */
  lemma {:induction false} RunSuccCloser(net: Net, steps: seq<Step>, founder: Key, n: Key)
    requires Inv(net, founder) && n in net
    ensures n in Exec(net, founder, steps)
    ensures InsideOrEnd(Succ(Exec(net, founder, steps), n), n, Succ(net, n))
    decreases |steps|
  {
    if steps == [] {
    } else {
      StepSuccCloser(net, steps[0], founder, n);
      RunSuccCloser(Apply(net, steps[0]), steps[1..], founder, n);
    }
  }

  /** What other nodes do before the two requests of one pass are answered. */
  datatype Delay = Delay(beforeClosest: seq<Step>, beforeNext: seq<Step>)

  datatype Answer = Answer(net: Net, prev: Key, next: Key)

  /** The loop of node_find_prev standing at `current`, whose successor was `next` when it
      was last asked, while the ring goes on changing; None when the delays run out first. */
  ghost function Chase(net: Net, founder: Key, current: Key, next: Key, id: Key, delays: seq<Delay>): Option<Answer>
    requires Inv(net, founder) && current in net && current != id
    requires InsideOrEnd(Succ(net, current), current, next)
    decreases |delays|
  {
    if InsideOrEnd(id, current, next) then Some(Answer(net, current, next))
    else if delays == [] then None
    else
      var net1 := Exec(net, founder, delays[0].beforeClosest);
      RunSuccCloser(net, delays[0].beforeClosest, founder, current);
      PassProgress(net1, current, next, id);
      var closer := ClosestPreceding(net1, current, id).value;
      var net2 := Exec(net1, founder, delays[0].beforeNext);
      RunSuccCloser(net1, delays[0].beforeNext, founder, closer);
      Chase(net2, founder, closer, Succ(net2, closer), id, delays[1..])
  }

  /** Such a lookup still ends, within as many passes as there are keys left to cross, and the
      successor it returns can be joined behind even if the ring has moved on. */
  lemma {:induction false} ChaseEnds(net: Net, founder: Key, current: Key, next: Key, id: Key, delays: seq<Delay>)
    requires Inv(net, founder) && current in net && next in net && current != id
    requires InsideOrEnd(Succ(net, current), current, next)
    requires InsideOrEnd(next, current, founder)
    requires |delays| >= Dist(current, id)
    ensures var r := Chase(net, founder, current, next, id, delays);
      && r.Some?
      && Inv(r.value.net, founder)
      && r.value.prev in r.value.net && r.value.next in r.value.net
      && InsideOrEnd(id, r.value.prev, r.value.next)
      && (id !in r.value.net ==> Inv(JoinedBehind(r.value.net, id, r.value.next), founder))
    decreases |delays|
  {
    if InsideOrEnd(id, current, next) {
      if id !in net {
        JoinInv(net, id, next, founder);
      }
    } else {
      var net1 := Exec(net, founder, delays[0].beforeClosest);
      RunSuccCloser(net, delays[0].beforeClosest, founder, current);
      PassProgress(net1, current, next, id);
      var closer := ClosestPreceding(net1, current, id).value;
      var net2 := Exec(net1, founder, delays[0].beforeNext);
      RunSuccCloser(net1, delays[0].beforeNext, founder, closer);
      ChaseEnds(net2, founder, closer, Succ(net2, closer), id, delays[1..]);
    }
  }
}

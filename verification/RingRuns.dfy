/** Runs from the founder on: the invariant always holds and no member ever loses another. */
module RingRuns {
  import opened Circle
  import opened Ring
  import opened RingInvariant

  ghost function Exec(net: Net, founder: Key, steps: seq<Step>): (net': Net)
    requires Inv(net, founder)
    ensures Inv(net', founder)
    decreases |steps|
  {
    if steps == [] then net
    else
      StepInv(net, steps[0], founder);
      Exec(Apply(net, steps[0]), founder, steps[1..])
  }

  /** Every state of every run satisfies the invariant. */
  lemma {:induction false} RunInv(founder: Key, steps: seq<Step>)
    ensures Inv(Founded(founder), founder)
    ensures Inv(Exec(Founded(founder), founder, steps), founder)
  {
  }

  // ---------------------------------------------------------------- reachability

  ghost function Walk(net: Net, a: Key, k: nat): (b: Key)
    requires WellFormed(net) && a in net
    ensures b in net
    decreases k
  {
    if k == 0 then a else Walk(net, Succ(net, a), k - 1)
  }

  /** Following successors from a arrives at b. */
  ghost predicate Reaches(net: Net, a: Key, b: Key)
    requires WellFormed(net) && a in net
  {
    exists k: nat :: Walk(net, a, k) == b
  }

  lemma {:induction false} WalkCompose(net: Net, a: Key, j: nat, k: nat)
    requires WellFormed(net) && a in net
    ensures Walk(net, Walk(net, a, j), k) == Walk(net, a, j + k)
    decreases j
  {
    if j == 0 {
    } else {
      WalkCompose(net, Succ(net, a), j - 1, k);
    }
  }

  lemma ReachesJoin(net: Net, a: Key, b: Key, c: Key)
    requires WellFormed(net) && a in net && b in net && Reaches(net, a, b) && Reaches(net, b, c)
    ensures Reaches(net, a, c)
  {
    var j: nat :| Walk(net, a, j) == b;
    var k: nat :| Walk(net, b, k) == c;
    WalkCompose(net, a, j, k);
  }

  lemma {:induction false} ArcIsWalk(net: Net, a: Key, b: Key)
    requires WellFormed(net) && a in net && ArcReaches(net, a, b)
    ensures Reaches(net, a, b)
    decreases Dist(a, b)
  {
    var s := Succ(net, a);
    assert Walk(net, s, 0) == s;
    assert Walk(net, a, 1) == s;
    if s == b {
    } else {
      ArcIsWalk(net, s, b);
      ReachesJoin(net, a, s, b);
    }
  }

  /** If every old edge can still be travelled, so can every old path. */
  lemma {:induction false} EdgesSurvive(net: Net, net': Net, a: Key, k: nat)
    requires WellFormed(net) && WellFormed(net') && net.Keys <= net'.Keys && a in net
    requires forall n {:trigger Succ(net, n)} :: n in net ==> Reaches(net', n, Succ(net, n))
    ensures Reaches(net', a, Walk(net, a, k))
    decreases k
  {
    if k == 0 {
      assert Walk(net', a, 0) == a;
    } else {
      var s := Succ(net, a);
      EdgesSurvive(net, net', s, k - 1);
      ReachesJoin(net', a, s, Walk(net, a, k));
    }
  }

  lemma EdgeKept(net: Net, net': Net, n: Key)
    requires WellFormed(net) && WellFormed(net') && n in net && n in net'
    requires Succ(net', n) == Succ(net, n)
    ensures Reaches(net', n, Succ(net, n))
  {
    assert Walk(net', Succ(net, n), 0) == Succ(net, n);
    assert Walk(net', n, 1) == Succ(net, n);
  }

  /** One stabilization: the adopted predecessor still leads to the old successor. */
  lemma StabilizeEdge(net: Net, n: Key, k: Key, founder: Key)
    requires Inv(net, founder) && n in net && k in net
    ensures var net' := Stabilized(net, n);
      WellFormed(net') && net'.Keys == net.Keys && Reaches(net', k, Succ(net, k))
  {
    StabilizeInv(net, n, founder);
    var s := Succ(net, n);
    var p := net[s].prev.value;
    var net' := Stabilized(net, n);
    assert LinkedAt(net, s);
    if Inside(p, n, s) {
      var net1 := SetSucc(net, n, p);
      SetSuccEffect(net, n, p);
      NotifiedEffect(net1, p, n);
      assert Succ(net', n) == p;
      if k == n {
        assert forall x {:trigger Succ(net', x)} :: x in net && x != n ==> Succ(net', x) == Succ(net, x);
        ArcFrame(net, net', p, s);
        ArcIsWalk(net', p, s);
        EdgeKept(net', net', n);
        ReachesJoin(net', n, p, s);
      } else {
        EdgeKept(net, net', k);
      }
    } else {
      NotifiedEffect(net, s, n);
      EdgeKept(net, net', k);
    }
  }

  lemma StepKeepsEdges(net: Net, step: Step, founder: Key, k: Key)
    requires Inv(net, founder) && k in net
    ensures var net' := Apply(net, step);
      WellFormed(net') && net.Keys <= net'.Keys && Reaches(net', k, Succ(net, k))
  {
    StepInv(net, step, founder);
    var net' := Apply(net, step);
    if step.Stabilize? && step.n in net {
      StabilizeEdge(net, step.n, k, founder);
    } else {
      if step.Join? && step.peer in net && step.n !in net {
        var s := FindNext(net, step.peer, step.n);
        AddedEffect(net, step.n, s);
        NotifiedEffect(net[step.n := Peer(s, None, NoFingers())], s, step.n);
      } else if step.Notify? && step.n in net {
        NotifiedEffect(net, Succ(net, step.n), step.n);
      } else if step.FixFinger? && step.n in net && 1 <= step.i < KEY_BITS {
        SetFingerEffect(net, step.n, step.i, FindNext(net, step.n, step.start));
      }
      EdgeKept(net, net', k);
    }
  }

  lemma StepKeepsReach(net: Net, step: Step, founder: Key, a: Key, b: Key)
    requires Inv(net, founder) && a in net && Reaches(net, a, b)
    ensures Inv(Apply(net, step), founder) && net.Keys <= Apply(net, step).Keys
    ensures Reaches(Apply(net, step), a, b)
  {
    StepInv(net, step, founder);
    var net' := Apply(net, step);
    var k: nat :| Walk(net, a, k) == b;
    forall n | n in net ensures n in net' && Reaches(net', n, Succ(net, n)) {
      StepKeepsEdges(net, step, founder, n);
    }
    EdgesSurvive(net, net', a, k);
  }

  /** Successor reachability is never lost over any run. */
  lemma {:induction false} RunKeepsReach(net: Net, steps: seq<Step>, founder: Key, a: Key, b: Key)
    requires Inv(net, founder) && a in net && Reaches(net, a, b)
    ensures net.Keys <= Exec(net, founder, steps).Keys
    ensures Reaches(Exec(net, founder, steps), a, b)
    decreases |steps|
  {
    if steps == [] {
    } else {
      StepKeepsReach(net, steps[0], founder, a, b);
      RunKeepsReach(Apply(net, steps[0]), steps[1..], founder, a, b);
    }
  }

  /** Nobody is ever cut off: every member leads to the founder without overshooting it. */
  lemma {:induction false} AllReachFounder(net: Net, founder: Key, n: Key)
    requires Inv(net, founder) && n in net
    ensures ArcReaches(net, n, founder)
    decreases Dist(n, founder)
  {
    var s := Succ(net, n);
    if s == founder {
    } else {
      AllReachFounder(net, founder, s);
    }
  }
}

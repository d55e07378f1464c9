/** Stabilization is a question and an answer: the ring may have changed when the answer arrives. */
module RingStale {
  import opened Circle
  import opened Ring
  import opened RingInvariant
  import opened RingRuns
  import opened RingConvergence

  /** No step of anyone breaks a path of successors that does not overshoot its end. */
  lemma StepKeepsArc(net: Net, step: Step, founder: Key, a: Key, b: Key)
    requires Inv(net, founder) && a in net && ArcReaches(net, a, b)
    ensures Inv(Apply(net, step), founder) && a in Apply(net, step)
    ensures ArcReaches(Apply(net, step), a, b)
  {
    StepInv(net, step, founder);
    var net' := Apply(net, step);
    if step.Stabilize? && step.n in net {
      var n := step.n;
      var s := Succ(net, n);
      var p := net[s].prev.value;
      assert LinkedAt(net, s);
      if Inside(p, n, s) {
        SetSuccEffect(net, n, p);
        ArcDetour(net, SetSucc(net, n, p), n, p, a, b);
        NotifiedEffect(SetSucc(net, n, p), p, n);
        ArcFrame(SetSucc(net, n, p), net', a, b);
      } else {
        NotifiedEffect(net, s, n);
        ArcFrame(net, net', a, b);
      }
    } else if !step.Stabilize? {
      SuccsStay(net, step);
      ArcFrame(net, net', a, b);
    }
  }

  /** Only stabilization changes a successor. */
  lemma SuccsStay(net: Net, step: Step)
    requires WellFormed(net) && WellFormed(Apply(net, step)) && !step.Stabilize?
    ensures net.Keys <= Apply(net, step).Keys
    ensures forall k {:trigger Succ(Apply(net, step), k)} :: k in net ==> Succ(Apply(net, step), k) == Succ(net, k)
  {
  }

  lemma {:induction false} RunKeepsArc(net: Net, steps: seq<Step>, founder: Key, a: Key, b: Key)
    requires Inv(net, founder) && a in net && ArcReaches(net, a, b)
    ensures a in Exec(net, founder, steps) && ArcReaches(Exec(net, founder, steps), a, b)
    ensures net.Keys <= Exec(net, founder, steps).Keys
    decreases |steps|
  {
    if steps == [] {
    } else {
      StepKeepsArc(net, steps[0], founder, a, b);
      StepKeepsMembers(net, steps[0]);
      RunKeepsArc(Apply(net, steps[0]), steps[1..], founder, a, b);
    }
  }

  lemma StepKeepsMembers(net: Net, step: Step)
    requires WellFormed(net) && WellFormed(Apply(net, step))
    ensures net.Keys <= Apply(net, step).Keys
  {
  }

  /** n acts on the answer p that its successor s gave some time ago. */
  ghost function StabilizedWith(net: Net, n: Key, s: Key, p: Key): Net
    requires WellFormed(net) && n in net && s in net && p in net
  {
    if Inside(p, n, s) then
      SetSuccEffect(net, n, p);
      Notified(SetSucc(net, n, p), p, n)
    else Notified(net, s, n)
  }

  /** However much happens between the question and the answer, acting on it keeps the invariant
      and never raises the measure; n itself waits, so its successor is still the one it asked. */
  lemma StaleAnswerIsSafe(net: Net, founder: Key, n: Key, p: Key, steps: seq<Step>)
    requires Inv(net, founder) && n in net && net[Succ(net, n)].prev == Some(p)
    requires var now := Exec(net, founder, steps); n in now && Succ(now, n) == Succ(net, n)
    ensures var now, s := Exec(net, founder, steps), Succ(net, n);
      && s in now && p in now
      && Inv(StabilizedWith(now, n, s, p), founder)
      && (StabilizedWith(now, n, s, p) != now ==> Measure(StabilizedWith(now, n, s, p)) < Measure(now))
  {
    var s := Succ(net, n);
    assert LinkedAt(net, s);
    RunKeepsArc(net, steps, founder, p, s);
    var now := Exec(net, founder, steps);
    if Inside(p, n, s) {
      var next := SetSucc(now, n, p);
      SetSuccEffect(now, n, p);
      SuccSetKeeps(now, next, n, p);
      NotifyInv(next, n, founder);
      AdoptDrops(now, n, p);
      NotifyDrops(next, p, n);
    } else {
      NotifyInv(now, n, founder);
      NotifyDrops(now, s, n);
    }
  }
}

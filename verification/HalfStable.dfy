/** A ring that is not stabilized yet can make a tracker its own receiver. */
module HalfStable {
  import opened Circle
  import opened Ring
  import opened RingInvariant
  import opened RingRuns
  import opened RingTurns
  import opened SortedSeq
  import opened TorrentFile
  import opened Placement
  import opened Blocking
  import opened Upkeep

  ghost function Pair(a: Key, s: Key): Net {
    map[a := Peer(s, Some(s), NoFingers()), s := Peer(a, Some(a), NoFingers())]
  }

  lemma PairArises(a: Key, s: Key)
    requires a != s
    ensures Ring.WellFormed(Founded(a)) && Ring.WellFormed(Apply(Founded(a), Join(s, a)))
    ensures Apply(Apply(Founded(a), Join(s, a)), Stabilize(a)) == Pair(a, s)
  {
  }

  ghost function Triple(a: Key, n: Key, s: Key): Net {
    map[a := Peer(s, Some(s), NoFingers()), s := Peer(a, Some(n), NoFingers()), n := Peer(s, None, NoFingers())]
  }

  lemma TripleArises(a: Key, n: Key, s: Key)
    requires a < n < s && Ring.WellFormed(Pair(a, s))
    ensures Apply(Pair(a, s), Join(n, a)) == Triple(a, n, s)
  {
  }

  lemma TripleReached(a: Key, n: Key, s: Key)
    requires a < n < s
    ensures Inv(Founded(a), a)
    ensures Exec(Founded(a), a, [Join(s, a), Stabilize(a), Join(n, a)]) == Triple(a, n, s)
    ensures Inv(Triple(a, n, s), a)
  {
    hide Apply;
    FoundedInv(a);
    PairArises(a, s);
    StepInv(Founded(a), Join(s, a), a);
    StepInv(Apply(Founded(a), Join(s, a)), Stabilize(a), a);
    TripleArises(a, n, s);
    StepInv(Pair(a, s), Join(n, a), a);
    var steps := [Join(s, a), Stabilize(a), Join(n, a)];
    assert steps[1..] == [Stabilize(a), Join(n, a)] && steps[1..][1..] == [Join(n, a)] && steps[1..][1..][1..] == [];
    assert Exec(Pair(a, s), a, [Join(n, a)]) == Triple(a, n, s);
    assert Exec(Apply(Founded(a), Join(s, a)), a, [Stabilize(a), Join(n, a)]) == Triple(a, n, s);
  }

  /** s has had the ring part of a turn: nothing to stabilize, and finger i repaired. */
  ghost function Repaired(a: Key, n: Key, s: Key, i: nat, start: Key): Net
    requires a < n < s && 1 <= i < KEY_BITS
    requires Ring.WellFormed(Triple(a, n, s))
  {
    FixedFinger(Triple(a, n, s), s, i, start)
  }

  lemma RepairedReached(a: Key, n: Key, s: Key, i: nat, start: Key)
    requires a < n < s && 1 <= i < KEY_BITS
    ensures Inv(Founded(a), a) && Ring.WellFormed(Triple(a, n, s))
    ensures Exec(Founded(a), a, [Join(s, a), Stabilize(a), Join(n, a), Stabilize(s), FixFinger(s, i, start)])
         == Repaired(a, n, s, i, start)
    ensures Inv(Repaired(a, n, s, i, start), a)
  {
    hide Apply, Inv;
    TripleReached(a, n, s);
    InvForm(Triple(a, n, s), a);
    NothingToStabilize(a, n, s);
    StepInv(Triple(a, n, s), Stabilize(s), a);
    StepInv(Triple(a, n, s), FixFinger(s, i, start), a);
    RepairIsAStep(a, n, s, i, start);
    var first := [Join(s, a), Stabilize(a), Join(n, a)];
    var rest := [Stabilize(s), FixFinger(s, i, start)];
    ExecTwo(Triple(a, n, s), a, Stabilize(s), FixFinger(s, i, start));
    ExecJoin(Founded(a), a, first, rest);
    assert first + rest == [Join(s, a), Stabilize(a), Join(n, a), Stabilize(s), FixFinger(s, i, start)];
  }

  lemma InvForm(net: Net, founder: Key)
    requires Inv(net, founder)
    ensures Ring.WellFormed(net)
  {
  }

  lemma NothingToStabilize(a: Key, n: Key, s: Key)
    requires a < n < s && Ring.WellFormed(Triple(a, n, s))
    ensures Apply(Triple(a, n, s), Stabilize(s)) == Triple(a, n, s)
  {
  }

  lemma RepairIsAStep(a: Key, n: Key, s: Key, i: nat, start: Key)
    requires a < n < s && 1 <= i < KEY_BITS && Ring.WellFormed(Triple(a, n, s))
    ensures Apply(Triple(a, n, s), FixFinger(s, i, start)) == Repaired(a, n, s, i, start)
  {
  }

  lemma {:induction false} ExecJoin(net: Net, founder: Key, steps: seq<Step>, more: seq<Step>)
    requires Inv(net, founder)
    ensures Exec(net, founder, steps + more) == Exec(Exec(net, founder, steps), founder, more)
    decreases |steps|
  {
    hide Apply, Anchored, Told, Linked;
    if steps == [] {
      assert steps + more == more;
    } else {
      assert (steps + more)[1..] == steps[1..] + more;
      StepInv(net, steps[0], founder);
      ExecJoin(Apply(net, steps[0]), founder, steps[1..], more);
    }
  }

  lemma ExecTwo(net: Net, founder: Key, one: Step, two: Step)
    requires Inv(net, founder) && Inv(Apply(net, one), founder)
    ensures Exec(net, founder, [one, two]) == Apply(Apply(net, one), two)
  {
    hide Apply, Anchored, Told, Linked;
    StepInv(Apply(net, one), two, founder);
    assert [one, two][1..] == [two] && [two][1..] == [];
    assert Exec(Apply(net, one), founder, [two]) == Apply(Apply(net, one), two);
  }

  /** Whatever finger s has repaired: a skips n, and successors lead from s to a. */
  lemma RepairedTraps(a: Key, id: Key, n: Key, s: Key, i: nat, start: Key)
    requires a < id < n < s && 1 <= i < KEY_BITS && Ring.WellFormed(Triple(a, n, s))
    requires Ring.WellFormed(Repaired(a, n, s, i, start))
    ensures var net := Repaired(a, n, s, i, start);
      && FindNext(net, a, id) == s
      && FingersFollow(net) && Traps(net, a, n, s) && InsideOrEnd(id, a, n)
  {
    hide FindNext;
    var net := Repaired(a, n, s, i, start);
    RepairTarget(a, n, s, start);
    RepairedIs(a, n, s, i, start);
    assert ArcReaches(net, s, a);
    forall x, j | x in net && 0 <= j < |net[x].finger| && net[x].finger[j].Some?
      ensures net[x].finger[j].value == x || ArcReaches(net, x, net[x].finger[j].value)
    {
    }
    Shortcut(net, a, id, s);
  }

  lemma Shortcut(net: Net, a: Key, id: Key, s: Key)
    requires Ring.WellFormed(net) && a in net && a < id < s && Succ(net, a) == s
    ensures FindNext(net, a, id) == s
  {
  }

  lemma RepairTarget(a: Key, n: Key, s: Key, start: Key)
    requires a < n < s && Ring.WellFormed(Triple(a, n, s))
    ensures FindNext(Triple(a, n, s), s, start) in {a, s}
  {
  }

  lemma RepairedIs(a: Key, n: Key, s: Key, i: nat, start: Key)
    requires a < n < s && 1 <= i < KEY_BITS && Ring.WellFormed(Triple(a, n, s))
    requires Ring.WellFormed(Repaired(a, n, s, i, start))
    ensures var net, triple := Repaired(a, n, s, i, start), Triple(a, n, s);
      && net.Keys == {a, n, s} && net[a] == triple[a] && net[n] == triple[n]
      && net[s] == triple[s].(finger := NoFingers()[i - 1 := Some(FindNext(triple, s, start))])
  {
    hide FindNext;
  }

  /** Three trackers a < n < s, of which n has only just joined, and an id between a and n. The
      run up to here is a normal one, s has had the ring part of its turn with whatever finger
      repaired, an upload of the id from a goes to s, and yet the redistribution that ends the turn
      names s itself as the receiver. */
  lemma RedistributionCanBlock(a: Key, id: Key, n: Key, s: Key, i: nat, start: Key, f: File, stale: Key)
    requires a < id < n < s && 1 <= i < KEY_BITS
    ensures Inv(Founded(a), a)
    ensures var net :=
        Exec(Founded(a), a, [Join(s, a), Stabilize(a), Join(n, a), Stabilize(s), FixFinger(s, i, start)]);
      && net.Keys == {a, n, s} && FindNext(net, a, id) == s && Traps(net, a, n, s)
      && var w := World(net, map[a := [], n := [], s := [Entry(id, f)]]);
      Blocked(w, s, ToOwners(net, s, LowEnd(net, s, stale)))
  {
    hide Select, FindNext, Traps, FingersFollow, Blocked, Exec, Repaired;
    RepairedReached(a, n, s, i, start);
    var net := Repaired(a, n, s, i, start);
    InvForm(net, a);
    RepairedIs(a, n, s, i, start);
    RepairedTraps(a, id, n, s, i, start);
    var w := World(net, map[a := [], n := [], s := [Entry(id, f)]]);
    assert Entry(id, f) in w.stores[s] && LowEnd(net, s, stale) == n;
    BlockedIff(w, s, n);
  }
}

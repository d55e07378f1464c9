/** A node leaves an ideal ring without a word to its neighbours: what the turns of the others make
    of it. The entry of the node that left stays in the map until nobody points at it any more. */
module RingRepair {
  import opened Circle
  import opened Ring
  import opened RingInvariant
  import opened RingConvergence
  import opened RingLookup
  import opened RingTurns

  // ---------------------------------------------------------------- before p has noticed

  /** n has left from between p and s, and p still has it for its successor. Nothing else about
      successors and predecessors has changed, but s may know by now that n is gone; fingers may
      name any member, n included. */
  ghost predicate Missing(net: Net, n: Key, p: Key, s: Key) {
    && WellFormed(net) && n in net && p in net && s in net && n != p && n != s && p != s
    && IsNext(net.Keys, p, n) && IsNext(net.Keys, n, s)
    && forall k {:trigger MissingAt(net, n, s, k)} :: k in net && k != n ==> MissingAt(net, n, s, k)
  }

  ghost predicate MissingAt(net: Net, n: Key, s: Key, k: Key)
    requires WellFormed(net) && k in net
  {
    && IsNext(net.Keys, k, Succ(net, k))
    && (k == s ==> net[k].prev == None || net[k].prev == Some(n))
    && (k != s ==> net[k].prev.Some? && net[k].prev.value in net && IsNext(net.Keys, net[k].prev.value, k))
  }

  /** Behind n there is somebody who is not before n too. */
  ghost predicate Third(net: Net, n: Key)
    requires WellFormed(net) && n in net
  {
    Succ(net, Succ(net, n)) != n
  }

  lemma MissingFrom(net: Net, n: Key) returns (p: Key, s: Key)
    requires Ideal(net) && n in net && Succ(net, n) != n && Third(net, n)
    ensures net[n].prev == Some(p) && Succ(net, n) == s && Missing(net, n, p, s)
  {
    assert IdealAt(net, n) && WellFormedAt(net, n);
    p, s := net[n].prev.value, Succ(net, n);
    assert IdealAt(net, p) && IdealAt(net, s) && WellFormedAt(net, p) && WellFormedAt(net, s);
    NextIsUnique(net.Keys, p, n, Succ(net, p));
    assert p != n;
    forall k | k in net && k != n ensures MissingAt(net, n, s, k) {
      assert IdealAt(net, k) && WellFormedAt(net, k);
      if k == s {
        PrevIsUnique(net.Keys, s, n, net[s].prev.value);
      }
    }
  }

  /** Who is next to whom. */
  lemma MissingPairs(net: Net, n: Key, p: Key, s: Key, k: Key)
    requires Missing(net, n, p, s) && k in net && k != n
    ensures Succ(net, k) == n <==> k == p
    ensures Succ(net, k) != s
    ensures net[k].prev == Some(n) ==> k == s
    ensures k != s ==> net[k].prev.Some? && net[k].prev.value in net && Succ(net, net[k].prev.value) == k
  {
    assert MissingAt(net, n, s, k);
    assert MissingAt(net, n, s, p);
    NextIsUnique(net.Keys, p, n, Succ(net, p));
    if Succ(net, k) == n {
      PrevIsUnique(net.Keys, n, k, p);
    }
    if Succ(net, k) == s {
      PrevIsUnique(net.Keys, s, k, n);
    }
    if k != s {
      var q := net[k].prev.value;
      if q == n {
        NextIsUnique(net.Keys, n, k, s);
      }
      assert MissingAt(net, n, s, q);
      NextIsUnique(net.Keys, q, k, Succ(net, q));
    }
  }

  // ---------------------------------------------------------------- turns of the others

  /** Entries that agree up to fingers, and up to what s knows of n. */
  lemma MissingFrame(net: Net, net': Net, n: Key, p: Key, s: Key)
    requires Missing(net, n, p, s) && WellFormed(net') && net'.Keys == net.Keys
    requires forall k {:trigger Succ(net', k)} :: k in net && k != n ==> Succ(net', k) == Succ(net, k)
    requires forall k {:trigger net'[k]} :: k in net && k != n ==>
      net'[k].prev == net[k].prev || (k == s && net'[k].prev == None)
    ensures Missing(net', n, p, s)
  {
    hide IsNext;
    forall k | k in net' && k != n ensures MissingAt(net', n, s, k) {
      assert MissingAt(net, n, s, k);
      assert Succ(net', k) == Succ(net, k);
    }
  }

  lemma OtherChecks(net: Net, n: Key, p: Key, s: Key, k: Key)
    requires Missing(net, n, p, s) && k in net && k != n && k != p
    ensures Missing(Checked(net, k, {n}), n, p, s)
  {
    hide FirstAlive, IsNext, MissingAt;
    MissingPairs(net, n, p, s, k);
    CheckedForm(net, k, {n});
    assert Checked(net, k, {n}) == net[k := Cleaned(net[k], {n})];
    MissingFrame(net, Checked(net, k, {n}), n, p, s);
  }

  /** The others have nothing to stabilize. */
  lemma OtherStabilizes(net: Net, n: Key, p: Key, s: Key, k: Key)
    requires Missing(net, n, p, s) && k in net && k != n && k != p
    ensures CanStabilize(net, k, {n}) && Stabilizing(net, k, {n}) == net
  {
    MissingPairs(net, n, p, s, k);
    var t := Succ(net, k);
    assert MissingAt(net, n, s, k) && MissingAt(net, n, s, t);
    PrevIsUnique(net.Keys, t, k, net[t].prev.value);
  }

  lemma {:induction false} MissingRepairs(net: Net, n: Key, p: Key, s: Key, k: Key, repairs: seq<Repair>)
    requires Missing(net, n, p, s) && k in net
    ensures Missing(Repairing(net, k, repairs), n, p, s)
  {
    var net' := Repairing(net, k, repairs);
    forall m | m in net ensures Succ(net', m) == Succ(net, m) && net'[m].prev == net[m].prev {
    }
    MissingFrame(net, net', n, p, s);
  }

  /** A turn of anyone but p leaves it at that. */
  lemma OtherTurns(net: Net, n: Key, p: Key, s: Key, k: Key, repairs: seq<Repair>)
    requires Missing(net, n, p, s) && RingTurnRuns(net, k, repairs, {n}) && k != p
    ensures Missing(RingTurn(net, k, repairs, {n}), n, p, s)
  {
    hide MissingAt, IsNext, Checked, CanStabilize, Stabilizing, Repairing;
    MemberTurns(net, k, repairs, {n});
    OtherChecks(net, n, p, s, k);
    CheckedForm(net, k, {n});
    OtherStabilizes(Checked(net, k, {n}), n, p, s, k);
    MissingRepairs(Checked(net, k, {n}), n, p, s, k, repairs);
  }

  // ---------------------------------------------------------------- the turn of p

  /** p always finds somebody. */
  lemma LoserFinds(net: Net, n: Key, p: Key, s: Key) returns (x: Key)
    requires Missing(net, n, p, s)
    ensures !Stranded(net[p], {n}) && Spare(net[p], {n}) == Some(x) && x in net && x != n
    ensures Cleaned(net[p], {n}).succ == x && net[p].succ == n
  {
    MissingPairs(net, n, p, s, p);
    assert WellFormedAt(net, p);
    x := Spare(net[p], {n}).value;
  }

  /** The check of p, which finds x, and tells it: afterwards everyone left has a successor left,
      and the invariant holds with x for the founder. */
  lemma LoserChecks(net: Net, n: Key, p: Key, s: Key, x: Key)
    requires Missing(net, n, p, s) && Spare(net[p], {n}) == Some(x)
    ensures LiveInv(Checked(net, p, {n}), {n}, x)
  {
    hide FirstAlive, Spare, Checked, Inside, Anchored, Told, Linked, View, IsNext, MissingAt;
    var found := LoserFinds(net, n, p, s);
    var after := Checked(net, p, {n});
    CheckedForm(net, p, {n});
    LoserShape(net, n, p, s, x);
    LoserLed(net, after, n, p, s, x);
    ViewForm(after, {n});
    LoserInv(net, after, n, p, s, x);
  }

  /** What p's check changes. */
  ghost predicate Noticed(net: Net, after: Net, n: Key, p: Key, s: Key, x: Key)
    requires WellFormed(net)
  {
    && WellFormed(after) && after.Keys == net.Keys && x in net && x != n && p in net && Succ(after, p) == x
    && (forall k {:trigger Succ(after, k)} :: k in net && k != p ==> Succ(after, k) == Succ(net, k))
    && (forall k {:trigger after[k]} :: k in net && k != s ==> after[k].prev == net[k].prev)
    && (s in net && x == s ==> after[s].prev == Some(p))
    && (s in net && x != s ==> after[s].prev == net[s].prev)
  }

  lemma LoserShape(net: Net, n: Key, p: Key, s: Key, x: Key)
    requires Missing(net, n, p, s) && Spare(net[p], {n}) == Some(x)
    ensures Noticed(net, Checked(net, p, {n}), n, p, s, x)
  {
    hide FirstAlive, Spare;
    var found := LoserFinds(net, n, p, s);
    CheckedForm(net, p, {n});
    MissingPairs(net, n, p, s, p);
    MissingPairs(net, n, p, s, x);
    var me := Cleaned(net[p], {n});
    var net1 := net[p := me];
    assert MissingAt(net, n, s, x) && MissingAt(net, n, s, p);
    if x != p {
      assert net1[x] == net[x];
      if x != s {
        assert !Inside(p, net[x].prev.value, x);
        assert Checked(net, p, {n}) == net1;
      }
    }
  }

  lemma LoserLed(net: Net, after: Net, n: Key, p: Key, s: Key, x: Key)
    requires Missing(net, n, p, s) && Noticed(net, after, n, p, s, x)
    ensures Led(after, {n})
  {
    forall k | k in after && k !in {n} ensures Succ(after, k) !in {n} {
      MissingPairs(net, n, p, s, k);
    }
  }

  lemma LoserInv(net: Net, after: Net, n: Key, p: Key, s: Key, x: Key)
    requires Missing(net, n, p, s) && Noticed(net, after, n, p, s, x) && Led(after, {n})
    ensures Inv(ViewOf(after, {n}), x)
  {
    var v := ViewOf(after, {n});
    ViewForm(after, {n});
    forall k | k in v ensures InsideOrEnd(Succ(v, k), k, x) && v[Succ(v, k)].prev.Some? {
      LoserTold(net, after, n, p, s, x, k);
    }
    forall k | k in v ensures LinkedAt(v, k) {
      LoserLinked(net, after, n, p, s, x, k);
    }
  }

  lemma NoneBetween(k: Key, t: Key, x: Key)
    requires !Inside(x, k, t)
    ensures InsideOrEnd(t, k, x)
  {
  }

  lemma EndIsIn(k: Key, x: Key)
    ensures InsideOrEnd(x, k, x)
  {
  }

  lemma LoserTold(net: Net, after: Net, n: Key, p: Key, s: Key, x: Key, k: Key)
    requires Missing(net, n, p, s) && Noticed(net, after, n, p, s, x) && Led(after, {n})
    requires k in ViewOf(after, {n})
    ensures var v := ViewOf(after, {n}); InsideOrEnd(Succ(v, k), k, x) && v[Succ(v, k)].prev.Some?
  {
    hide Inside, InsideOrEnd;
    ViewForm(after, {n});
    MissingPairs(net, n, p, s, k);
    assert MissingAt(net, n, s, k);
    if k == p {
      EndIsIn(k, x);
    } else {
      NoneBetween(k, Succ(net, k), x);
    }
    var t := Succ(after, k);
    MissingPairs(net, n, p, s, t);
    assert MissingAt(net, n, s, t);
  }

  lemma LoserLinked(net: Net, after: Net, n: Key, p: Key, s: Key, x: Key, k: Key)
    requires Missing(net, n, p, s) && Noticed(net, after, n, p, s, x) && Led(after, {n})
    requires k in ViewOf(after, {n})
    ensures LinkedAt(ViewOf(after, {n}), k)
  {
    hide Inside;
    var v := ViewOf(after, {n});
    ViewForm(after, {n});
    MissingPairs(net, n, p, s, k);
    assert MissingAt(net, n, s, k);
    if v[k].prev.Some? {
      var q := v[k].prev.value;
      MissingPairs(net, n, p, s, q);
      assert Succ(v, q) == k;
    }
  }

  /** After its turn p is back in the ring of the living. */
  lemma LoserTurns(net: Net, n: Key, p: Key, s: Key, repairs: seq<Repair>) returns (founder: Key)
    requires Missing(net, n, p, s) && RingTurnRuns(net, p, repairs, {n})
    ensures LiveInv(RingTurn(net, p, repairs, {n}), {n}, founder)
  {
    hide MissingAt, IsNext, Checked, Inv, View;
    founder := LoserFinds(net, n, p, s);
    LoserChecks(net, n, p, s, founder);
    CheckedForm(net, p, {n});
    TurnGoesOn(Checked(net, p, {n}), p, repairs, {n}, founder);
  }

  /** The rest of a turn once the check is over. */
  lemma TurnGoesOn(net: Net, k: Key, repairs: seq<Repair>, gone: set<Key>, founder: Key)
    requires LiveInv(net, gone, founder) && k in net && k !in gone && CanStabilize(net, k, gone)
    requires (StabilizingForm(net, k, gone); CanRepairAll(Stabilizing(net, k, gone), k, repairs, gone))
    ensures LiveInv(Repairing(Stabilizing(net, k, gone), k, repairs), gone, founder)
  {
    hide View, Stabilizing, CanStabilize, CanRepairAll, Repairing, Stabilized, Anchored, Told, Linked;
    ViewForm(net, gone);
    StabilizingSeen(net, k, gone);
    StabilizingForm(net, k, gone);
    var stable := Stabilizing(net, k, gone);
    RepairsSeen(stable, k, repairs, gone);
    StabilizeInv(ViewOf(net, gone), k, founder);
    SameShapeKeeps(View(stable, gone), View(Repairing(stable, k, repairs), gone), founder);
  }

  /** Whoever takes turns in whatever order: until p has had one nothing changes, and from then on
      the invariant holds among those left. */
  lemma {:induction false} TurnsHeal(net: Net, n: Key, p: Key, s: Key, turns: seq<Turn>) returns (founder: Key)
    requires Missing(net, n, p, s) && RingTurnsRun(net, turns, {n})
    ensures !TakesTurn(turns, p) ==> Missing(AfterTurns(net, turns, {n}), n, p, s)
    ensures TakesTurn(turns, p) ==> LiveInv(AfterTurns(net, turns, {n}), {n}, founder)
    decreases |turns|
  {
    hide MissingAt, IsNext, RingTurnRuns, RingTurn, Inv, View;
    if turns == [] {
      founder := p;
    } else {
      var t := turns[0];
      var net' := RingTurn(net, t.who, t.repairs, {n});
      if t.who == p {
        founder := LoserTurns(net, n, p, s, t.repairs);
        TurnsKeepInv(net', turns[1..], {n}, founder);
      } else {
        OtherTurns(net, n, p, s, t.who, t.repairs);
        founder := TurnsHeal(net', n, p, s, turns[1..]);
        assert TakesTurn(turns, p) ==> TakesTurn(turns[1..], p) by {
          if i :| 0 <= i < |turns| && turns[i].who == p {
            assert turns[1..][i - 1].who == p;
          }
        }
      }
    }
  }

  // ---------------------------------------------------------------- the last traces

  /** k points at nobody who is gone, beyond its successor. */
  ghost predicate Untraced(net: Net, gone: set<Key>, k: Key)
    requires k in net
  {
    && (net[k].prev.Some? ==> net[k].prev.value !in gone)
    && forall i :: 0 <= i < |net[k].finger| && net[k].finger[i].Some? ==> net[k].finger[i].value !in gone
  }

  lemma CheckUntraces(net: Net, gone: set<Key>, who: Key, k: Key)
    requires Led(net, gone) && who in net && who !in gone && k in net
    requires k == who || Untraced(net, gone, k)
    ensures k in Checked(net, who, gone) && Untraced(Checked(net, who, gone), gone, k)
  {
    hide FirstAlive;
    assert Succ(net, who) !in gone;
  }

  lemma StabilizingUntraced(net: Net, gone: set<Key>, who: Key, k: Key)
    requires Led(net, gone) && who in net && who !in gone && k in net && CanStabilize(net, who, gone)
    requires Untraced(net, gone, k)
    ensures k in Stabilizing(net, who, gone) && Untraced(Stabilizing(net, who, gone), gone, k)
  {
  }

  lemma {:induction false} RepairsUntraced(net: Net, gone: set<Key>, who: Key, repairs: seq<Repair>, k: Key)
    requires Led(net, gone) && who in net && who !in gone && CanRepairAll(net, who, repairs, gone)
    requires k in net && Untraced(net, gone, k)
    ensures Untraced(Repairing(net, who, repairs), gone, k)
    decreases |repairs|
  {
    hide View, CanRepair, SameShape;
    if repairs == [] {
    } else {
      var r := repairs[0];
      RepairIndex(net, who, r, gone);
      RepairSeen(net, who, r, gone);
      RepairUntraced(net, gone, who, r, k);
      FixedKeys(net, who, r);
      RepairsUntraced(FixedFinger(net, who, r.i, r.start), gone, who, repairs[1..], k);
    }
  }

  lemma RepairUntraced(net: Net, gone: set<Key>, who: Key, r: Repair, k: Key)
    requires Led(net, gone) && who in net && who !in gone && CanRepair(net, who, r, gone)
    requires k in net && Untraced(net, gone, k)
    ensures var net' := FixedFinger(net, who, r.i, r.start); k in net' && Untraced(net', gone, k)
  {
    hide LookupPrev;
    AnswerAlive(net, who, r.start, gone);
    assert WellFormedAt(net, who);
  }

  /** Once everyone has a successor left, whoever takes a turn forgets the gone for good. */
  lemma TurnUntraces(net: Net, gone: set<Key>, founder: Key, who: Key, repairs: seq<Repair>, k: Key)
    requires LiveInv(net, gone, founder) && RingTurnRuns(net, who, repairs, gone) && k in net
    requires k == who || Untraced(net, gone, k)
    ensures k in RingTurn(net, who, repairs, gone) && Untraced(RingTurn(net, who, repairs, gone), gone, k)
  {
    hide View, Checked, Stabilizing, CanStabilize, CanRepairAll, Repairing, Untraced, Stabilized, Anchored, Linked;
    ViewForm(net, gone);
    CheckedForm(net, who, gone);
    CheckUnseen(net, who, gone);
    CheckUntraces(net, gone, who, k);
    var checked := Checked(net, who, gone);
    StabilizingSeen(checked, who, gone);
    StabilizingForm(checked, who, gone);
    StabilizingUntraced(checked, gone, who, k);
    RepairsUntraced(Stabilizing(checked, who, gone), gone, who, repairs, k);
  }

  ghost predicate NoTraces(net: Net, gone: set<Key>) {
    forall k :: k in net && k !in gone ==> Untraced(net, gone, k)
  }

  /** Without traces the gone can be dropped from the map. */
  lemma NoTracesView(net: Net, gone: set<Key>)
    requires Led(net, gone) && NoTraces(net, gone)
    ensures net - gone == View(net, gone)
  {
    forall k | k in net && k !in gone ensures (net - gone)[k] == View(net, gone)[k] {
      assert Untraced(net, gone, k);
      assert AllForgotten(net[k].finger, gone) == net[k].finger;
    }
    assert (net - gone).Keys == View(net, gone).Keys;
  }

  lemma {:induction false} TurnsUntrace(net: Net, gone: set<Key>, founder: Key, turns: seq<Turn>, k: Key)
    requires LiveInv(net, gone, founder) && RingTurnsRun(net, turns, gone) && k in net
    requires TakesTurn(turns, k) || Untraced(net, gone, k)
    ensures Untraced(AfterTurns(net, turns, gone), gone, k)
    decreases |turns|
  {
    hide View, Inv, RingTurnRuns, RingTurn, Untraced;
    if turns == [] {
    } else {
      var t := turns[0];
      TurnLowers(net, t.who, t.repairs, gone, founder);
      if t.who == k || Untraced(net, gone, k) {
        TurnUntraces(net, gone, founder, t.who, t.repairs, k);
      } else {
        var i :| 0 <= i < |turns| && turns[i].who == k;
        assert turns[1..][i - 1].who == k;
      }
      TurnsUntrace(RingTurn(net, t.who, t.repairs, gone), gone, founder, turns[1..], k);
    }
  }

  /** When three or more were in an ideal ring and one of them left, then after any turns in which
      its predecessor takes part, and rounds of everybody left, more than the measure of so many
      members can be, the ring is ideal again and nobody points at the one that left. The turns may
      come in any order and repair any fingers, as long as they run to their end. */
  lemma DepartureHeals(net: Net, n: Key, first: seq<Turn>, rounds: seq<seq<Turn>>)
    requires Ideal(net) && n in net && Succ(net, n) != n && Third(net, n)
    requires RingTurnsRun(net, first, {n}) && RoundsRun(AfterTurns(net, first, {n}), rounds, {n})
    requires (assert IdealAt(net, n); TakesTurn(first, net[n].prev.value))
    requires forall i :: 0 <= i < |rounds| ==> EveryoneLeft(net, {n}, rounds[i])
    requires |rounds| > Bound(net.Keys)
    ensures var after := AfterRounds(AfterTurns(net, first, {n}), rounds, {n}) - {n};
      after.Keys == net.Keys - {n} && Ideal(after)
  {
    hide View, Inv, RingTurnsRun, AfterTurns, TakesTurn, Missing, Measure, Bound;
    var p, s := MissingFrom(net, n);
    MissingForm(net, n, p, s);
    var founder := TurnsHeal(net, n, p, s, first);
    var start := AfterTurns(net, first, {n});
    ViewForm(start, {n});
    FewerMembers(start, {n});
    TurnsConverge(start, rounds, {n}, founder);
    RoundsUntrace(start, {n}, founder, rounds);
    var end := AfterRounds(start, rounds, {n});
    NoTracesView(end, {n});
    ViewForm(end, {n});
  }

  lemma MissingForm(net: Net, n: Key, p: Key, s: Key)
    requires Missing(net, n, p, s)
    ensures WellFormed(net) && n in net && p in net && s in net && n != p && n != s && p != s
  {
  }

  lemma FewerMembers(net: Net, gone: set<Key>)
    requires Led(net, gone)
    ensures Measure(ViewOf(net, gone)) <= Bound(net.Keys)
  {
    hide Measure, View, Bound;
    ViewForm(net, gone);
    MeasureBound(ViewOf(net, gone));
    BoundGrows(ViewOf(net, gone).Keys, net.Keys);
  }

  lemma {:induction false} RoundsUntrace(net: Net, gone: set<Key>, founder: Key, rounds: seq<seq<Turn>>)
    requires LiveInv(net, gone, founder) && RoundsRun(net, rounds, gone)
    requires rounds != [] && forall i :: 0 <= i < |rounds| ==> EveryoneLeft(net, gone, rounds[i])
    ensures NoTraces(AfterRounds(net, rounds, gone), gone)
    decreases |rounds|
  {
    hide View, Inv, RingTurnsRun, AfterTurns, TakesTurn, Untraced, Measure;
    var net' := AfterTurns(net, rounds[0], gone);
    TurnsKeepInv(net, rounds[0], gone, founder);
    if |rounds| == 1 {
      assert EveryoneLeft(net, gone, rounds[0]);
      forall k | k in net' && k !in gone ensures Untraced(net', gone, k) {
        TurnsUntrace(net, gone, founder, rounds[0], k);
      }
    } else {
      RoundsUntrace(net', gone, founder, rounds[1..]);
    }
  }

  // ---------------------------------------------------------------- when a turn runs to its end

  ghost predicate Indexed(repairs: seq<Repair>) {
    forall i :: 0 <= i < |repairs| ==> 1 <= repairs[i].i < KEY_BITS
  }

  lemma {:induction false} TracelessStraight(net: Net, x: Key, id: Key, gone: set<Key>)
    requires Led(net, gone) && NoTraces(net, gone) && x in net && x !in gone && x != id
    ensures Straight(net, x, id, gone)
    decreases Dist(x, id)
  {
    if InsideOrEnd(id, x, Succ(net, x)) {
    } else {
      var c := ClosestPreceding(net, x, id).value;
      HopAlive(net, x, id, gone);
      TracelessStraight(net, c, id, gone);
    }
  }

  lemma HopAlive(net: Net, x: Key, id: Key, gone: set<Key>)
    requires Led(net, gone) && NoTraces(net, gone) && x in net && x !in gone
    ensures ClosestPreceding(net, x, id).Some? ==> ClosestPreceding(net, x, id).value !in gone
  {
    assert WellFormedAt(net, x) && Untraced(net, gone, x);
    assert Succ(net, x) !in gone;
    var r := ScanFingers(net[x].finger, x, id, |net[x].finger|);
    if r.Some? {
      var i :| 0 <= i < |net[x].finger| && net[x].finger[i] == r;
    }
  }

  lemma FixedUntraced(net: Net, k: Key, r: Repair, gone: set<Key>)
    requires Led(net, gone) && NoTraces(net, gone) && k in net && k !in gone && CanRepair(net, k, r, gone)
    ensures NoTraces(FixedFinger(net, k, r.i, r.start), gone)
  {
    hide Untraced, CanRepair;
    RepairIndex(net, k, r, gone);
    FixedKeys(net, k, r);
    forall m | m in net && m !in gone ensures Untraced(FixedFinger(net, k, r.i, r.start), gone, m) {
      RepairUntraced(net, gone, k, r, m);
    }
  }

  lemma {:induction false} TracelessRepairs(net: Net, k: Key, repairs: seq<Repair>, gone: set<Key>)
    requires Led(net, gone) && NoTraces(net, gone) && k in net && k !in gone && Indexed(repairs)
    ensures CanRepairAll(net, k, repairs, gone)
    decreases |repairs|
  {
    hide Untraced, NoTraces, View, SameShape;
    if repairs == [] {
    } else {
      var r := repairs[0];
      if k != r.start {
        TracelessStraight(net, k, r.start, gone);
      }
      RepairSeen(net, k, r, gone);
      FixedUntraced(net, k, r, gone);
      FixedKeys(net, k, r);
      TracelessRepairs(FixedFinger(net, k, r.i, r.start), k, repairs[1..], gone);
    }
  }

  /** Once nobody points at those who are gone, every turn runs to its end, as far as the ring is
      concerned. With nobody gone this is so in every state that joins and turns can reach. */
  lemma TracelessRuns(net: Net, gone: set<Key>, founder: Key, k: Key, repairs: seq<Repair>)
    requires LiveInv(net, gone, founder) && NoTraces(net, gone) && k in net && k !in gone && Indexed(repairs)
    ensures RingTurnRuns(net, k, repairs, gone)
    ensures NoTraces(RingTurn(net, k, repairs, gone), gone)
  {
    hide View, Untraced, Checked, Stabilizing, CanStabilize, CanRepairAll, Repairing, Stabilized, Anchored, Linked;
    ViewForm(net, gone);
    CheckedForm(net, k, gone);
    CheckUnseen(net, k, gone);
    var checked := Checked(net, k, gone);
    StabilizingSeen(checked, k, gone);
    StabilizingForm(checked, k, gone);
    var stable := Stabilizing(checked, k, gone);
    forall m | m in stable && m !in gone ensures Untraced(stable, gone, m) {
      assert Untraced(net, gone, m);
      CheckUntraces(net, gone, k, m);
      StabilizingUntraced(checked, gone, k, m);
    }
    TracelessRepairs(stable, k, repairs, gone);
    forall m | m in net && m !in gone ensures Untraced(RingTurn(net, k, repairs, gone), gone, m) {
      assert Untraced(net, gone, m);
      TurnUntraces(net, gone, founder, k, repairs, m);
    }
  }

  lemma NobodyTraced(net: Net)
    requires WellFormed(net)
    ensures NoTraces(net, {})
  {
  }

  // ---------------------------------------------------------------- two members

  /** The last one left finds no successor, unless one of its fingers names itself. Then it has
      no predecessor, so that it can do nothing about it. */
  lemma OneOfTwo(net: Net, n: Key, k: Key)
    requires Ideal(net) && n in net && Succ(net, n) == k && k != n && !Third(net, n)
    ensures Stranded(net[k], {n}) <==> Some(k) !in net[k].finger
    ensures !Stranded(net[k], {n}) ==>
      var rest := Checked(net, k, {n}) - {n};
      && rest == map[k := Peer(k, None, AllForgotten(net[k].finger, {n}))]
      && WellFormed(rest) && Stabilized(rest, k) == rest && !Ideal(rest)
    ensures forall repairs :: !RingTurnRuns(net, k, repairs, {n})
  {
    OnlyTwo(net, n, k);
    assert IdealAt(net, k) && WellFormedAt(net, k);
    if !Stranded(net[k], {n}) {
      var rest := Checked(net, k, {n}) - {n};
      assert rest.Keys == {k};
      assert WellFormedAt(rest, k);
      assert !IdealAt(rest, k);
    }
  }

  lemma OnlyTwo(net: Net, n: Key, k: Key)
    requires Ideal(net) && n in net && Succ(net, n) == k && k != n && !Third(net, n)
    ensures net.Keys == {n, k} && net[k].prev == Some(n)
  {
    assert IdealAt(net, n) && IdealAt(net, k) && WellFormedAt(net, k);
    forall m | m in net ensures m in {n, k} {
      assert !Inside(m, n, k) && !Inside(m, k, n);
    }
    PrevIsUnique(net.Keys, k, n, net[k].prev.value);
  }
}

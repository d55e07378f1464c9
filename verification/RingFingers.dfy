/** How whole turns make the finger tables those of the documentation. */
module RingFingers {
  import opened Circle
  import opened Ring
  import opened RingInvariant
  import opened RingConvergence
  import opened RingTurns
  import opened RingRepair
  import opened RingHops

  /** Every repair of the turn has the start key that the documentation gives its finger. */
  ghost predicate Documented(t: Turn) {
    forall j :: 0 <= j < |t.repairs| ==> Proper(AsStep(t.who, t.repairs[j]))
  }

  ghost function AsStep(n: Key, r: Repair): Step {
    FixFinger(n, r.i, r.start)
  }

  /** Some repair of n is of entry i. */
  ghost predicate Repaired(repairs: seq<Repair>, i: nat) {
    exists j :: 0 <= j < |repairs| && repairs[j].i == i
  }

  ghost predicate TurnsRepair(turns: seq<Turn>, n: Key, i: nat) {
    exists j :: 0 <= j < |turns| && turns[j].who == n && Repaired(turns[j].repairs, i)
  }

  lemma CheckOfAll(net: Net, k: Key)
    requires WellFormed(net) && k in net
    ensures Checked(net, k, {}) == net && !Stranded(net[k], {})
  {
    hide FirstAlive;
    assert AllForgotten(net[k].finger, {}) == net[k].finger;
    assert Cleaned(net[k], {}) == net[k];
  }

  lemma QuietTurn(net: Net, k: Key)
    requires Ideal(net) && k in net
    ensures WellFormed(Checked(net, k, {})) && CanStabilize(Checked(net, k, {}), k, {})
    ensures Stabilizing(Checked(net, k, {}), k, {}) == net
  {
    hide IdealAt, View, Checked, Stabilizing, CanStabilize, Stabilized, Told, Anchored, Linked;
    CheckOfAll(net, k);
    ViewOfAll(net);
    IdealIsInv(net, k);
    StabilizingSeen(net, k, {});
    ViewOfAll(Stabilizing(net, k, {}));
    IdealIsQuiet(net, k);
  }

  /** On an ideal ring a turn runs, and does nothing but its repairs. */
  lemma TurnIsRepairs(net: Net, k: Key, repairs: seq<Repair>)
    requires Ideal(net) && k in net && Indexed(repairs)
    ensures RingTurnRuns(net, k, repairs, {}) && RingTurn(net, k, repairs, {}) == Repairing(net, k, repairs)
  {
    hide IdealAt, View, RingTurnRuns, RingTurn, Inv, Indexed, NoTraces;
    ViewOfAll(net);
    AllUntraced(net);
    IdealIsInv(net, k);
    TracelessRuns(net, {}, k, k, repairs);
    OnlyRepairs(net, k, repairs);
  }

  lemma AllUntraced(net: Net)
    ensures NoTraces(net, {})
  {
  }

  lemma OnlyRepairs(net: Net, k: Key, repairs: seq<Repair>)
    requires Ideal(net) && RingTurnRuns(net, k, repairs, {})
    ensures RingTurn(net, k, repairs, {}) == Repairing(net, k, repairs)
  {
    hide IdealAt, Checked, Stabilizing, CanStabilize, CanRepairAll, Repairing;
    QuietTurn(net, k);
  }

  /** The repairs of one turn make their entries correct and spoil none. */
  lemma {:induction false} RepairsKeep(net: Net, n: Key, repairs: seq<Repair>, m: Key, k: nat)
    requires Ideal(net) && n in net && m in net && k < KEY_BITS
    requires forall j :: 0 <= j < |repairs| ==> Proper(AsStep(n, repairs[j]))
    ensures Ideal(Repairing(net, n, repairs)) && Repairing(net, n, repairs).Keys == net.Keys
    ensures FingerCorrect(net, m, k) || (n == m && Repaired(repairs, k)) ==>
      FingerCorrect(Repairing(net, n, repairs), m, k)
    decreases |repairs|
  {
    hide FingerCorrect, IdealAt, WellFormedAt, LookupPrev, Repaired;
    if repairs == [] {
      NothingRepaired(k);
    } else {
      var r := repairs[0];
      assert Proper(AsStep(n, r));
      RepairHelps(net, AsStep(n, r), m, k);
      RepairsKeep(FixedFinger(net, n, r.i, r.start), n, repairs[1..], m, k);
      FirstOrLater(repairs, k);
    }
  }

  lemma NothingRepaired(k: nat)
    ensures !Repaired([], k)
  {
  }

  lemma FirstOrLater(repairs: seq<Repair>, i: nat)
    requires repairs != []
    ensures Repaired(repairs, i) <==> repairs[0].i == i || Repaired(repairs[1..], i)
  {
    if Repaired(repairs, i) {
      var j :| 0 <= j < |repairs| && repairs[j].i == i;
      assert j > 0 ==> repairs[1..][j - 1].i == i;
    }
    if Repaired(repairs[1..], i) {
      var j :| 0 <= j < |repairs| - 1 && repairs[1..][j].i == i;
      assert repairs[j + 1].i == i;
    }
  }

  lemma ProperIsIndexed(t: Turn)
    requires Documented(t)
    ensures Indexed(t.repairs)
  {
    forall j | 0 <= j < |t.repairs| ensures 1 <= t.repairs[j].i < KEY_BITS {
      assert Proper(AsStep(t.who, t.repairs[j]));
    }
  }

  lemma FirstTurnOrLater(turns: seq<Turn>, n: Key, i: nat)
    requires turns != []
    ensures TurnsRepair(turns, n, i) ==>
      (turns[0].who == n && Repaired(turns[0].repairs, i)) || TurnsRepair(turns[1..], n, i)
  {
    hide Repaired;
    if TurnsRepair(turns, n, i) {
      var j :| 0 <= j < |turns| && turns[j].who == n && Repaired(turns[j].repairs, i);
      assert j > 0 ==> turns[1..][j - 1] == turns[j];
    }
  }

  /** On an ideal ring turns of members run, and an entry that one of them repairs is correct from then
      on, whatever the others repair. */
  lemma {:induction false} TurnsReach(net: Net, turns: seq<Turn>, m: Key, k: nat)
    requires Ideal(net) && m in net && k < KEY_BITS
    requires forall j :: 0 <= j < |turns| ==> turns[j].who in net && Documented(turns[j])
    ensures RingTurnsRun(net, turns, {})
    ensures Ideal(AfterTurns(net, turns, {}))
    ensures FingerCorrect(net, m, k) || TurnsRepair(turns, m, k) ==> FingerCorrect(AfterTurns(net, turns, {}), m, k)
    decreases |turns|
  {
    hide FingerCorrect, IdealAt, Documented, RingTurnRuns, RingTurn, Repaired, TurnsRepair, Repairing;
    if turns == [] {
      NoTurn(m, k);
    } else {
      var t := turns[0];
      ProperIsIndexed(t);
      TurnIsRepairs(net, t.who, t.repairs);
      DocumentedKeeps(net, t, m, k);
      FirstTurnOrLater(turns, m, k);
      TurnsReach(RingTurn(net, t.who, t.repairs, {}), turns[1..], m, k);
    }
  }

  lemma NoTurn(m: Key, k: nat)
    ensures !TurnsRepair([], m, k)
  {
  }

  lemma DocumentedKeeps(net: Net, t: Turn, m: Key, k: nat)
    requires Ideal(net) && Documented(t) && t.who in net && m in net && k < KEY_BITS
    ensures Ideal(Repairing(net, t.who, t.repairs)) && Repairing(net, t.who, t.repairs).Keys == net.Keys
    ensures FingerCorrect(net, m, k) || (t.who == m && Repaired(t.repairs, k)) ==>
      FingerCorrect(Repairing(net, t.who, t.repairs), m, k)
  {
    hide FingerCorrect, IdealAt, Repaired, Repairing, Proper;
    RepairsKeep(net, t.who, t.repairs, m, k);
  }

  /** Turns that between them repair every entry from 1 on of every member make all tables correct. */
  lemma TurnsMakeCorrect(net: Net, turns: seq<Turn>)
    requires Ideal(net) && net.Keys != {}
    requires forall j :: 0 <= j < |turns| ==> turns[j].who in net && Documented(turns[j])
    requires forall n, i: nat {:trigger TurnsRepair(turns, n, i)} ::
      n in net && 1 <= i < KEY_BITS ==> TurnsRepair(turns, n, i)
    ensures RingTurnsRun(net, turns, {}) && FingersCorrect(AfterTurns(net, turns, {}))
  {
    hide FingerCorrect, IdealAt, Documented, RingTurnsRun, AfterTurns, TurnsRepair;
    var f :| f in net.Keys;
    TurnsReach(net, turns, f, 0);
    var after := AfterTurns(net, turns, {});
    forall n, i: nat | n in after && i < KEY_BITS ensures FingerCorrect(after, n, i) {
      TurnsReach(net, turns, n, i);
      FirstIsCorrect(net, n);
      assert i > 0 ==> TurnsRepair(turns, n, i);
    }
  }

  /** With everybody there turns always run, whatever entries they repair. */
  lemma {:induction false} TurnsOfAllRun(net: Net, turns: seq<Turn>, founder: Key)
    requires Inv(net, founder) && forall j :: 0 <= j < |turns| ==> turns[j].who in net && Indexed(turns[j].repairs)
    ensures RingTurnsRun(net, turns, {}) && Inv(AfterTurns(net, turns, {}), founder)
    decreases |turns|
  {
    hide Anchored, Told, Linked, WellFormedAt, Indexed, RingTurnRuns, RingTurn;
    if turns == [] {
    } else {
      var t := turns[0];
      TurnOfOneRuns(net, t, founder);
      TurnsOfAllRun(RingTurn(net, t.who, t.repairs, {}), turns[1..], founder);
    }
  }

  lemma TurnOfOneRuns(net: Net, t: Turn, founder: Key)
    requires Inv(net, founder) && t.who in net && Indexed(t.repairs)
    ensures RingTurnRuns(net, t.who, t.repairs, {}) && Inv(RingTurn(net, t.who, t.repairs, {}), founder)
  {
    hide Anchored, Told, Linked, Indexed, RingTurnRuns, RingTurn, View, NoTraces;
    InvOfAll(net, founder);
    AllUntraced(net);
    TracelessRuns(net, {}, founder, t.who, t.repairs);
    TurnSeen(net, t.who, t.repairs, {}, founder);
    ViewOfAll(RingTurn(net, t.who, t.repairs, {}));
  }

  /** Every turn is one of a member, with entries that exist. */
  ghost predicate OfMembers(net: Net, turns: seq<Turn>) {
    forall j :: 0 <= j < |turns| ==> turns[j].who in net && Indexed(turns[j].repairs)
  }

  lemma {:induction false} RoundsOfAllRun(net: Net, rounds: seq<seq<Turn>>, founder: Key)
    requires Inv(net, founder) && forall i :: 0 <= i < |rounds| ==> OfMembers(net, rounds[i])
    ensures RoundsRun(net, rounds, {}) && Inv(AfterRounds(net, rounds, {}), founder)
    decreases |rounds|
  {
    hide Anchored, Told, Linked, WellFormedAt, Indexed, RingTurnsRun, AfterTurns;
    if rounds == [] {
    } else {
      assert OfMembers(net, rounds[0]);
      TurnsOfAllRun(net, rounds[0], founder);
      RoundsOfAllRun(AfterTurns(net, rounds[0], {}), rounds[1..], founder);
    }
  }

  /** From any state that joins and stabilizations lead to: rounds of turns run, with any repairs, and
      once there have been more of them than the measure says, one series of turns that repairs every
      entry makes every table that of the documentation. */
  lemma RoundsThenRepairs(net: Net, rounds: seq<seq<Turn>>, turns: seq<Turn>, founder: Key)
    requires Inv(net, founder) && |rounds| > Measure(net)
    requires forall i :: 0 <= i < |rounds| ==> OfMembers(net, rounds[i]) && EveryoneLeft(net, {}, rounds[i])
    requires forall j :: 0 <= j < |turns| ==> turns[j].who in net && Documented(turns[j])
    requires forall n, i: nat {:trigger TurnsRepair(turns, n, i)} ::
      n in net && 1 <= i < KEY_BITS ==> TurnsRepair(turns, n, i)
    ensures RoundsRun(net, rounds, {})
    ensures var ring := AfterRounds(net, rounds, {});
      RingTurnsRun(ring, turns, {}) && FingersCorrect(AfterTurns(ring, turns, {}))
  {
    hide IdealAt, WellFormedAt, Documented, TurnsRepair, Measure, LiveInv, LiveIdeal, RoundsRun, AfterRounds;
    hide AfterTurns, RingTurnsRun, FingersCorrect, EveryoneLeft, OfMembers, Anchored, Told, Linked;
    RoundsOfAllRun(net, rounds, founder);
    InvOfAll(net, founder);
    TurnsConverge(net, rounds, {}, founder);
    IdealOfAll(AfterRounds(net, rounds, {}));
    TurnsMakeCorrect(AfterRounds(net, rounds, {}), turns);
  }

  lemma InvOfAll(net: Net, founder: Key)
    requires Inv(net, founder)
    ensures LiveInv(net, {}, founder) && ViewOf(net, {}) == net && net.Keys != {}
  {
    hide Anchored, Told, Linked, View;
    ViewOfAll(net);
    SomeMember(net, founder);
  }

  lemma IdealOfAll(net: Net)
    requires LiveIdeal(net, {})
    ensures Ideal(net)
  {
    hide IdealAt, View;
    ViewOfAll(net);
  }

  lemma SomeMember(net: Net, founder: Key)
    requires Inv(net, founder)
    ensures founder in net
  {
  }
}

/** One periodic turn of a tracker, as far as it concerns the ring: it drops the pointers that do
    not answer, stabilizes and repairs fingers. The nodes in `gone` do not answer; their entries
    stay in the map because others may still point at them. */
module RingTurns {
  import opened Circle
  import opened Ring
  import opened RingInvariant
  import opened RingConvergence

  // ---------------------------------------------------------------- the check

  ghost function Forgotten(e: Option<Key>, gone: set<Key>): (r: Option<Key>)
    ensures r.Some? <==> e.Some? && e.value !in gone
    ensures r.Some? ==> r == e
  {
    if e.Some? && e.value in gone then None else e
  }

  ghost function AllForgotten(finger: seq<Option<Key>>, gone: set<Key>): (r: seq<Option<Key>>)
    ensures |r| == |finger| && forall i :: 0 <= i < |r| ==> r[i] == Forgotten(finger[i], gone)
  {
    seq(|finger|, i requires 0 <= i < |finger| => Forgotten(finger[i], gone))
  }

  /** The first finger from entry i on that answers. */
  ghost function FirstAlive(finger: seq<Option<Key>>, gone: set<Key>, i: nat): (r: Option<Key>)
    requires i <= |finger|
    ensures r.Some? ==> r.value !in gone && r in finger[i..]
    ensures r.None? <==> forall j :: i <= j < |finger| ==> Forgotten(finger[j], gone) == None
    decreases |finger| - i
  {
    if i == |finger| then None
    else if Forgotten(finger[i], gone).Some? then finger[i]
    else FirstAlive(finger, gone, i + 1)
  }

  /** What takes the place of a lost successor: a finger, or else the predecessor. */
  ghost function Spare(peer: Peer, gone: set<Key>): Option<Key> {
    var f := FirstAlive(peer.finger, gone, 0);
    if f.Some? then f else Forgotten(peer.prev, gone)
  }

  /** The node is left without a successor, and stops. */
  ghost predicate Stranded(peer: Peer, gone: set<Key>) {
    peer.succ in gone && Spare(peer, gone).None?
  }

  /** What the node knows once it has asked all its pointers for a sign of life. */
  ghost function Cleaned(peer: Peer, gone: set<Key>): Peer
    requires !Stranded(peer, gone)
  {
    Peer(if peer.succ in gone then Spare(peer, gone).value else peer.succ,
         Forgotten(peer.prev, gone),
         AllForgotten(peer.finger, gone))
  }

  /** s hears from k; it forgets a predecessor that does not answer. */
  ghost function Heard(net: Net, s: Key, k: Key, gone: set<Key>): Net
    requires s in net
  {
    var prev := Forgotten(net[s].prev, gone);
    if prev.None? || Inside(k, prev.value, s) then net[s := net[s].(prev := Some(k))] else net
  }

  /** The check of k; a new successor other than k itself is told at once. */
  ghost function Checked(net: Net, k: Key, gone: set<Key>): Net
    requires WellFormed(net) && k in net
  {
    assert WellFormedAt(net, k);
    if Stranded(net[k], gone) then net
    else
      var me := Cleaned(net[k], gone);
      var net1 := net[k := me];
      if net[k].succ in gone && me.succ != k then Heard(net1, me.succ, k, gone) else net1
  }

  // ---------------------------------------------------------------- stabilizing and repairing

  /** The successor answers with a predecessor, and when k adopts that one it can be told. */
  ghost predicate CanStabilize(net: Net, k: Key, gone: set<Key>)
    requires WellFormed(net) && k in net
  {
    var s := Succ(net, k);
    s !in gone && net[s].prev.Some? && (Inside(net[s].prev.value, k, s) ==> net[s].prev.value !in gone)
  }

  /** The stabilization of k while some do not answer. */
  ghost function Stabilizing(net: Net, k: Key, gone: set<Key>): Net
    requires WellFormed(net) && k in net && CanStabilize(net, k, gone)
  {
    var s := Succ(net, k);
    assert WellFormedAt(net, s);
    var p := net[s].prev.value;
    if Inside(p, k, s) then Heard(SetSucc(net, k, p), p, k, gone) else Heard(net, s, k, gone)
  }

  /** The lookup that stands at x asks only members that answer. */
  ghost predicate Straight(net: Net, x: Key, id: Key, gone: set<Key>)
    requires WellFormed(net) && x in net && x != id
    decreases Dist(x, id)
  {
    InsideOrEnd(id, x, Succ(net, x)) ||
      (ClosestPreceding(net, x, id).value !in gone && Straight(net, ClosestPreceding(net, x, id).value, id, gone))
  }

  /** A request of k for the successor of id is answered. */
  ghost predicate Answered(net: Net, k: Key, id: Key, gone: set<Key>)
    requires WellFormed(net) && k in net
  {
    k == id || Straight(net, k, id, gone)
  }

  /** The entry that is repaired, and its start key. */
  datatype Repair = Repair(i: nat, start: Key)

  ghost predicate CanRepair(net: Net, k: Key, r: Repair, gone: set<Key>)
    requires WellFormed(net) && k in net
  {
    1 <= r.i < KEY_BITS && Answered(net, k, r.start, gone)
  }

  ghost function Repairing(net: Net, k: Key, repairs: seq<Repair>): (net': Net)
    requires WellFormed(net) && k in net
    ensures SameShape(net, net')
    decreases |repairs|
  {
    if repairs == [] then net
    else if 1 <= repairs[0].i < KEY_BITS then
      SetFingerEffect(net, k, repairs[0].i, FindNext(net, k, repairs[0].start));
      Repairing(FixedFinger(net, k, repairs[0].i, repairs[0].start), k, repairs[1..])
    else Repairing(net, k, repairs[1..])
  }

  ghost predicate CanRepairAll(net: Net, k: Key, repairs: seq<Repair>, gone: set<Key>)
    requires WellFormed(net) && k in net
    decreases |repairs|
  {
    repairs == [] ||
      (CanRepair(net, k, repairs[0], gone)
       && (SetFingerEffect(net, k, repairs[0].i, FindNext(net, k, repairs[0].start));
           CanRepairAll(FixedFinger(net, k, repairs[0].i, repairs[0].start), k, repairs[1..], gone)))
  }

  // ---------------------------------------------------------------- the forms are kept

  lemma HeardForm(net: Net, s: Key, k: Key, gone: set<Key>)
    requires WellFormed(net) && s in net && k in net
    ensures WellFormed(Heard(net, s, k, gone)) && Heard(net, s, k, gone).Keys == net.Keys
  {
    PrevKeepsForm(net, s, k);
  }

  lemma CleanedForm(net: Net, k: Key, gone: set<Key>, me: Peer)
    requires WellFormed(net) && k in net && !Stranded(net[k], gone) && me == Cleaned(net[k], gone)
    ensures WellFormed(net[k := me]) && net[k := me].Keys == net.Keys && me.succ in net
  {
    var net' := net[k := me];
    assert net'.Keys == net.Keys;
    forall m | m in net' ensures WellFormedAt(net', m) {
      assert WellFormedAt(net, m) && WellFormedAt(net, k);
    }
  }

  lemma CheckedForm(net: Net, k: Key, gone: set<Key>)
    requires WellFormed(net) && k in net
    ensures WellFormed(Checked(net, k, gone)) && Checked(net, k, gone).Keys == net.Keys
  {
    if !Stranded(net[k], gone) {
      var me := Cleaned(net[k], gone);
      CleanedForm(net, k, gone, me);
      HeardForm(net[k := me], me.succ, k, gone);
    }
  }

  lemma StabilizingForm(net: Net, k: Key, gone: set<Key>)
    requires WellFormed(net) && k in net && CanStabilize(net, k, gone)
    ensures WellFormed(Stabilizing(net, k, gone)) && Stabilizing(net, k, gone).Keys == net.Keys
  {
    var s := Succ(net, k);
    assert WellFormedAt(net, s);
    var p := net[s].prev.value;
    if Inside(p, k, s) {
      SetSuccEffect(net, k, p);
      HeardForm(SetSucc(net, k, p), p, k, gone);
    } else {
      HeardForm(net, s, k, gone);
    }
  }

  /** The ring part of the turn of k. */
  ghost predicate RingTurnRuns(net: Net, k: Key, repairs: seq<Repair>, gone: set<Key>)
    requires WellFormed(net)
  {
    && k in net && k !in gone && !Stranded(net[k], gone)
    && (CheckedForm(net, k, gone); CanStabilize(Checked(net, k, gone), k, gone))
    && (StabilizingForm(Checked(net, k, gone), k, gone);
        CanRepairAll(Stabilizing(Checked(net, k, gone), k, gone), k, repairs, gone))
  }

  ghost function RingTurn(net: Net, k: Key, repairs: seq<Repair>, gone: set<Key>): (net': Net)
    requires WellFormed(net) && RingTurnRuns(net, k, repairs, gone)
    ensures WellFormed(net') && net'.Keys == net.Keys
  {
    CheckedForm(net, k, gone);
    StabilizingForm(Checked(net, k, gone), k, gone);
    Repairing(Stabilizing(Checked(net, k, gone), k, gone), k, repairs)
  }

  // ---------------------------------------------------------------- what the living make of it

  /** The network without the gone, pointers to which count as unset. */
  ghost function View(net: Net, gone: set<Key>): Net {
    map k | k in net && k !in gone ::
      Peer(net[k].succ, Forgotten(net[k].prev, gone), AllForgotten(net[k].finger, gone))
  }

  /** Everyone left has a successor left. */
  ghost predicate Led(net: Net, gone: set<Key>) {
    WellFormed(net) && forall k {:trigger Succ(net, k)} :: k in net && k !in gone ==> Succ(net, k) !in gone
  }

  ghost predicate LiveInv(net: Net, gone: set<Key>, founder: Key) {
    Led(net, gone) && Inv(View(net, gone), founder)
  }

  ghost predicate LiveIdeal(net: Net, gone: set<Key>) {
    Led(net, gone) && Ideal(View(net, gone))
  }

  lemma ViewForm(net: Net, gone: set<Key>)
    requires Led(net, gone)
    ensures WellFormed(View(net, gone)) && View(net, gone).Keys == net.Keys - gone
    ensures forall k {:trigger Succ(View(net, gone), k)} ::
      k in net && k !in gone ==> Succ(View(net, gone), k) == Succ(net, k)
  {
    var v := View(net, gone);
    assert v.Keys == net.Keys - gone;
    forall k | k in v ensures WellFormedAt(v, k) {
      assert WellFormedAt(net, k);
      assert Succ(net, k) !in gone;
    }
  }

  lemma ViewOfAll(net: Net)
    requires WellFormed(net)
    ensures View(net, {}) == net && Led(net, {})
  {
    assert View(net, {}).Keys == net.Keys;
    forall k | k in net ensures View(net, {})[k] == net[k] {
      assert AllForgotten(net[k].finger, {}) == net[k].finger;
    }
  }

  /** Where everyone has a successor, a check is not seen. */
  lemma CheckUnseen(net: Net, k: Key, gone: set<Key>)
    requires Led(net, gone) && k in net && k !in gone
    ensures !Stranded(net[k], gone) && Led(Checked(net, k, gone), gone)
    ensures View(Checked(net, k, gone), gone) == View(net, gone)
  {
    hide FirstAlive;
    CheckedForm(net, k, gone);
    assert Succ(net, k) !in gone;
    var net' := Checked(net, k, gone);
    assert net' == net[k := Cleaned(net[k], gone)];
    assert AllForgotten(net'[k].finger, gone) == AllForgotten(net[k].finger, gone);
    forall m | m in net && m !in gone ensures Succ(net', m) == Succ(net, m) {
    }
    assert View(net', gone) == View(net, gone);
  }

  lemma HeardSeen(net: Net, s: Key, k: Key, gone: set<Key>)
    requires WellFormed(net) && s in net && s !in gone && k in net && k !in gone
    ensures View(Heard(net, s, k, gone), gone) == Notified(View(net, gone), s, k)
  {
    var net', v := Heard(net, s, k, gone), View(net, gone);
    assert v[s].prev == Forgotten(net[s].prev, gone);
    assert View(net', gone) == Notified(v, s, k);
  }

  /** A stabilization is the one of the view; it never meets one of the gone. */
  lemma StabilizingSeen(net: Net, k: Key, gone: set<Key>)
    requires Led(net, gone) && Told(ViewOf(net, gone)) && k in net && k !in gone
    ensures CanStabilize(net, k, gone) && Led(Stabilizing(net, k, gone), gone)
    ensures View(Stabilizing(net, k, gone), gone) == Stabilized(ViewOf(net, gone), k)
  {
    hide Told;
    ViewForm(net, gone);
    var v, s := View(net, gone), Succ(net, k);
    assert v[Succ(v, k)].prev.Some? by {
      ToldAt(v, k);
    }
    StabilizingForm(net, k, gone);
    assert WellFormedAt(net, s);
    var p := net[s].prev.value;
    if Inside(p, k, s) {
      SetSuccEffect(net, k, p);
      SetSuccSeen(net, k, p, gone);
      HeardSeen(SetSucc(net, k, p), p, k, gone);
      HeardLed(SetSucc(net, k, p), p, k, gone);
    } else {
      HeardSeen(net, s, k, gone);
      HeardLed(net, s, k, gone);
    }
  }

  ghost function ViewOf(net: Net, gone: set<Key>): (v: Net)
    requires Led(net, gone)
    ensures WellFormed(v) && v == View(net, gone)
  {
    ViewForm(net, gone);
    View(net, gone)
  }

  lemma ToldAt(net: Net, k: Key)
    requires WellFormed(net) && Told(net) && k in net
    ensures net[Succ(net, k)].prev.Some?
  {
  }

  lemma SetSuccSeen(net: Net, k: Key, p: Key, gone: set<Key>)
    requires Led(net, gone) && k in net && k !in gone && p in net && p !in gone
    requires WellFormed(SetSucc(net, k, p))
    ensures View(SetSucc(net, k, p), gone) == SetSucc(View(net, gone), k, p) && Led(SetSucc(net, k, p), gone)
  {
    SetSuccEffect(net, k, p);
    assert View(SetSucc(net, k, p), gone) == SetSucc(View(net, gone), k, p);
  }

  lemma HeardLed(net: Net, s: Key, k: Key, gone: set<Key>)
    requires Led(net, gone) && s in net && k in net
    ensures Led(Heard(net, s, k, gone), gone)
  {
    HeardForm(net, s, k, gone);
    forall m | m in net ensures Succ(Heard(net, s, k, gone), m) == Succ(net, m) {
    }
  }

  // ---------------------------------------------------------------- repairs

  lemma {:induction false} StraightEndsAlive(net: Net, x: Key, id: Key, gone: set<Key>)
    requires WellFormed(net) && x in net && x != id && x !in gone && Straight(net, x, id, gone)
    ensures LookupPrev(net, x, id) !in gone
    decreases Dist(x, id)
  {
    if InsideOrEnd(id, x, Succ(net, x)) {
    } else {
      StraightEndsAlive(net, ClosestPreceding(net, x, id).value, id, gone);
    }
  }

  /** A request that is answered is not answered with one of the gone. */
  lemma AnswerAlive(net: Net, k: Key, id: Key, gone: set<Key>)
    requires Led(net, gone) && k in net && k !in gone && Answered(net, k, id, gone)
    ensures FindNext(net, k, id) !in gone
  {
    if k != id {
      StraightEndsAlive(net, k, id, gone);
    }
  }

  lemma ShapeTrans(a: Net, b: Net, c: Net)
    requires WellFormed(a) && SameShape(a, b) && SameShape(b, c)
    ensures SameShape(a, c)
  {
    forall k | k in a ensures Succ(c, k) == Succ(a, k) {
      assert Succ(b, k) == Succ(a, k);
    }
    forall k | k in a ensures c[k].prev == a[k].prev {
      assert b[k].prev == a[k].prev;
    }
  }

  lemma RepairSeen(net: Net, k: Key, r: Repair, gone: set<Key>)
    requires Led(net, gone) && k in net && k !in gone && CanRepair(net, k, r, gone)
    ensures var net' := FixedFinger(net, k, r.i, r.start);
      Led(net', gone) && SameShape(ViewOf(net, gone), View(net', gone))
  {
    hide LookupPrev;
    AnswerAlive(net, k, r.start, gone);
    var target := FindNext(net, k, r.start);
    SetFingerEffect(net, k, r.i, target);
    var net' := SetFinger(net, k, r.i, target);
    forall m | m in net' && m !in gone ensures Succ(net', m) !in gone {
      assert Succ(net', m) == Succ(net, m);
    }
    ViewForm(net, gone);
    ViewForm(net', gone);
    forall m | m in View(net, gone) ensures Succ(View(net', gone), m) == Succ(View(net, gone), m) {
      assert Succ(net', m) == Succ(net, m);
    }
  }

  lemma {:induction false} RepairsSeen(net: Net, k: Key, repairs: seq<Repair>, gone: set<Key>)
    requires Led(net, gone) && k in net && k !in gone && CanRepairAll(net, k, repairs, gone)
    ensures Led(Repairing(net, k, repairs), gone)
    ensures SameShape(ViewOf(net, gone), View(Repairing(net, k, repairs), gone))
    decreases |repairs|
  {
    hide CanRepair, View, FixedFinger;
    if repairs == [] {
      ShapeSelf(ViewOf(net, gone));
    } else {
      RepairIndex(net, k, repairs[0], gone);
      RepairSeen(net, k, repairs[0], gone);
      SetFingerEffect(net, k, repairs[0].i, FindNext(net, k, repairs[0].start));
      var net' := FixedFinger(net, k, repairs[0].i, repairs[0].start);
      FixedKeys(net, k, repairs[0]);
      RepairsSeen(net', k, repairs[1..], gone);
      ShapeTrans(ViewOf(net, gone), View(net', gone), View(Repairing(net, k, repairs), gone));
    }
  }

  lemma FixedKeys(net: Net, k: Key, r: Repair)
    requires WellFormed(net) && k in net && 1 <= r.i < KEY_BITS
    ensures FixedFinger(net, k, r.i, r.start).Keys == net.Keys
  {
  }

  lemma RepairIndex(net: Net, k: Key, r: Repair, gone: set<Key>)
    requires WellFormed(net) && k in net && CanRepair(net, k, r, gone)
    ensures 1 <= r.i < KEY_BITS
  {
  }

  lemma ShapeSelf(net: Net)
    requires WellFormed(net)
    ensures SameShape(net, net)
  {
  }

  // ---------------------------------------------------------------- whole turns

  /** One turn does to the view what one stabilization does, up to fingers. */
  lemma TurnSeen(net: Net, k: Key, repairs: seq<Repair>, gone: set<Key>, founder: Key)
    requires LiveInv(net, gone, founder) && RingTurnRuns(net, k, repairs, gone)
    ensures WellFormed(Stabilized(ViewOf(net, gone), k)) && Led(RingTurn(net, k, repairs, gone), gone)
    ensures SameShape(Stabilized(ViewOf(net, gone), k), View(RingTurn(net, k, repairs, gone), gone))
    ensures LiveInv(RingTurn(net, k, repairs, gone), gone, founder)
  {
    hide View, Checked, CanStabilize, Stabilizing, CanRepairAll, Repairing, Stabilized, Anchored, Told, Linked;
    ViewForm(net, gone);
    CheckedForm(net, k, gone);
    CheckUnseen(net, k, gone);
    var checked := Checked(net, k, gone);
    StabilizingSeen(checked, k, gone);
    StabilizingForm(checked, k, gone);
    var stable := Stabilizing(checked, k, gone);
    RepairsSeen(stable, k, repairs, gone);
    StabilizeInv(ViewOf(net, gone), k, founder);
    SameShapeKeeps(View(stable, gone), View(RingTurn(net, k, repairs, gone), gone), founder);
  }

  lemma IdealShape(net: Net, net': Net)
    requires Ideal(net) && SameShape(net, net')
    ensures Ideal(net')
  {
    hide IsNext;
    forall k | k in net' ensures IdealAt(net', k) {
      assert IdealAt(net, k);
      assert Succ(net', k) == Succ(net, k) && net'[k].prev == net[k].prev;
    }
  }

  /** Once the living form an ideal ring they keep doing so. */
  lemma TurnKeepsIdeal(net: Net, k: Key, repairs: seq<Repair>, gone: set<Key>)
    requires LiveIdeal(net, gone) && RingTurnRuns(net, k, repairs, gone)
    ensures LiveIdeal(RingTurn(net, k, repairs, gone), gone)
  {
    hide View, Ideal, RingTurnRuns, RingTurn, Inv, Stabilized;
    ViewForm(net, gone);
    MemberTurns(net, k, repairs, gone);
    IdealIsInv(ViewOf(net, gone), k);
    TurnSeen(net, k, repairs, gone, k);
    IdealIsQuiet(ViewOf(net, gone), k);
    IdealShape(View(net, gone), View(RingTurn(net, k, repairs, gone), gone));
  }

  lemma MemberTurns(net: Net, k: Key, repairs: seq<Repair>, gone: set<Key>)
    requires WellFormed(net) && RingTurnRuns(net, k, repairs, gone)
    ensures k in net && k !in gone
  {
  }

  // ---------------------------------------------------------------- convergence by turns

  /** Whether a stabilization does anything depends on the shape alone. */
  lemma EffectByShape(net: Net, net': Net, k: Key)
    requires WellFormed(net) && SameShape(net, net') && k in net
    ensures Stabilized(net, k) == net <==> Stabilized(net', k) == net'
  {
    var s := Succ(net, k);
    assert Succ(net', k) == s && net'[s].prev == net[s].prev;
    EffectAt(net, k);
    EffectAt(net', k);
  }

  lemma EffectAt(net: Net, k: Key)
    requires WellFormed(net) && k in net
    ensures var s := Succ(net, k);
      Stabilized(net, k) == net <==>
        (net[s].prev.Some? ==> !Inside(net[s].prev.value, k, s) && !Inside(k, net[s].prev.value, s))
  {
    var s := Succ(net, k);
    assert WellFormedAt(net, s);
    if net[s].prev.Some? {
      var p := net[s].prev.value;
      if Inside(p, k, s) {
        SetSuccEffect(net, k, p);
        NotifiedEffect(SetSucc(net, k, p), p, k);
        assert p != s;
        assert Succ(Stabilized(net, k), k) == p;
      } else {
        NotifiedEffect(net, s, k);
        if Inside(k, p, s) {
          assert Stabilized(net, k)[s].prev == Some(k) && k != p;
        }
      }
    }
  }

  lemma MeasureByShape(net: Net, net': Net)
    requires WellFormed(net) && SameShape(net, net')
    ensures Measure(net') == Measure(net)
  {
    hide Steps;
    forall k | k in net ensures Weight(net', k) == Weight(net, k) {
      assert Succ(net', k) == Succ(net, k) && net'[k].prev == net[k].prev;
    }
    TotalMonotone(net, net', net.Keys);
    TotalMonotone(net', net, net.Keys);
  }

  /** A periodic turn: the fingers repaired, and what the predecessor field still contains when no
      predecessor is known. */
  datatype Turn = Turn(who: Key, repairs: seq<Repair>, stale: Key)

  ghost predicate RingTurnsRun(net: Net, turns: seq<Turn>, gone: set<Key>)
    requires WellFormed(net)
    decreases |turns|
  {
    turns == [] ||
      (RingTurnRuns(net, turns[0].who, turns[0].repairs, gone)
       && RingTurnsRun(RingTurn(net, turns[0].who, turns[0].repairs, gone), turns[1..], gone))
  }

  ghost function AfterTurns(net: Net, turns: seq<Turn>, gone: set<Key>): (net': Net)
    requires WellFormed(net) && RingTurnsRun(net, turns, gone)
    ensures WellFormed(net') && net'.Keys == net.Keys
    decreases |turns|
  {
    if turns == [] then net
    else AfterTurns(RingTurn(net, turns[0].who, turns[0].repairs, gone), turns[1..], gone)
  }

  ghost predicate TakesTurn(turns: seq<Turn>, k: Key) {
    exists i :: 0 <= i < |turns| && turns[i].who == k
  }

  lemma {:induction false} TurnsKeepInv(net: Net, turns: seq<Turn>, gone: set<Key>, founder: Key)
    requires LiveInv(net, gone, founder) && RingTurnsRun(net, turns, gone)
    ensures LiveInv(AfterTurns(net, turns, gone), gone, founder)
    ensures Measure(ViewOf(AfterTurns(net, turns, gone), gone)) <= Measure(ViewOf(net, gone))
    decreases |turns|
  {
    hide View, Inv, RingTurnRuns, RingTurn, Measure;
    if turns == [] {
    } else {
      TurnLowers(net, turns[0].who, turns[0].repairs, gone, founder);
      TurnsKeepInv(RingTurn(net, turns[0].who, turns[0].repairs, gone), turns[1..], gone, founder);
    }
  }

  lemma TurnLowers(net: Net, k: Key, repairs: seq<Repair>, gone: set<Key>, founder: Key)
    requires LiveInv(net, gone, founder) && RingTurnRuns(net, k, repairs, gone)
    ensures LiveInv(RingTurn(net, k, repairs, gone), gone, founder)
    ensures var v, v' := ViewOf(net, gone), ViewOf(RingTurn(net, k, repairs, gone), gone);
      && k in v && Measure(v') <= Measure(v)
      && (if Stabilized(v, k) == v then SameShape(v, v') else Measure(v') < Measure(v))
  {
    hide View, Inv, RingTurnRuns, RingTurn, Measure, Stabilized;
    MemberTurns(net, k, repairs, gone);
    ViewForm(net, gone);
    TurnSeen(net, k, repairs, gone, founder);
    var v, v' := ViewOf(net, gone), ViewOf(RingTurn(net, k, repairs, gone), gone);
    StabilizeDrops(v, k);
    MeasureByShape(Stabilized(v, k), v');
  }

  /** Turns in which someone takes part who has something to do lower the measure. */
  lemma {:induction false} TurnsLower(net: Net, turns: seq<Turn>, gone: set<Key>, founder: Key, k: Key)
    requires LiveInv(net, gone, founder) && RingTurnsRun(net, turns, gone) && TakesTurn(turns, k)
    requires k in ViewOf(net, gone) && Stabilized(ViewOf(net, gone), k) != ViewOf(net, gone)
    ensures LiveInv(AfterTurns(net, turns, gone), gone, founder)
    ensures Measure(ViewOf(AfterTurns(net, turns, gone), gone)) < Measure(ViewOf(net, gone))
    decreases |turns|
  {
    hide View, Inv, RingTurnRuns, RingTurn, Measure, Stabilized;
    var t := turns[0];
    var net' := RingTurn(net, t.who, t.repairs, gone);
    TurnLowers(net, t.who, t.repairs, gone, founder);
    if Stabilized(ViewOf(net, gone), t.who) == ViewOf(net, gone) {
      EffectByShape(ViewOf(net, gone), ViewOf(net', gone), k);
      var i :| 0 <= i < |turns| && turns[i].who == k;
      assert i > 0 && turns[1..][i - 1].who == k;
      TurnsLower(net', turns[1..], gone, founder, k);
    } else {
      TurnsKeepInv(net', turns[1..], gone, founder);
    }
  }

  ghost predicate RoundsRun(net: Net, rounds: seq<seq<Turn>>, gone: set<Key>)
    requires WellFormed(net)
    decreases |rounds|
  {
    rounds == [] ||
      (RingTurnsRun(net, rounds[0], gone) && RoundsRun(AfterTurns(net, rounds[0], gone), rounds[1..], gone))
  }

  ghost function AfterRounds(net: Net, rounds: seq<seq<Turn>>, gone: set<Key>): (net': Net)
    requires WellFormed(net) && RoundsRun(net, rounds, gone)
    ensures WellFormed(net') && net'.Keys == net.Keys
    decreases |rounds|
  {
    if rounds == [] then net else AfterRounds(AfterTurns(net, rounds[0], gone), rounds[1..], gone)
  }

  ghost predicate EveryoneLeft(net: Net, gone: set<Key>, turns: seq<Turn>) {
    forall k :: k in net && k !in gone ==> TakesTurn(turns, k)
  }

  /** Rounds of whole turns make the ring of the living ideal before their number exceeds the
      measure, as long as the turns run to their end. */
  lemma {:induction false} TurnsConverge(net: Net, rounds: seq<seq<Turn>>, gone: set<Key>, founder: Key)
    requires LiveInv(net, gone, founder) && RoundsRun(net, rounds, gone)
    requires forall i :: 0 <= i < |rounds| ==> EveryoneLeft(net, gone, rounds[i])
    requires |rounds| > Measure(ViewOf(net, gone))
    ensures LiveIdeal(AfterRounds(net, rounds, gone), gone)
    decreases |rounds|
  {
    hide Measure, Stabilized, RingTurnsRun, AfterTurns, TakesTurn, View;
    ViewForm(net, gone);
    var v := ViewOf(net, gone);
    if Ideal(v) {
      RoundsStayIdeal(net, rounds, gone);
    } else {
      QuiescentIffIdeal(v, founder);
      var k :| k in v && Stabilized(v, k) != v;
      TurnsLower(net, rounds[0], gone, founder, k);
      TurnsConverge(AfterTurns(net, rounds[0], gone), rounds[1..], gone, founder);
    }
  }

  lemma {:induction false} TurnsStayIdeal(net: Net, turns: seq<Turn>, gone: set<Key>)
    requires LiveIdeal(net, gone) && RingTurnsRun(net, turns, gone)
    ensures LiveIdeal(AfterTurns(net, turns, gone), gone)
    decreases |turns|
  {
    hide Ideal, View, RingTurnRuns, RingTurn;
    if turns == [] {
    } else {
      TurnKeepsIdeal(net, turns[0].who, turns[0].repairs, gone);
      TurnsStayIdeal(RingTurn(net, turns[0].who, turns[0].repairs, gone), turns[1..], gone);
    }
  }

  lemma {:induction false} RoundsStayIdeal(net: Net, rounds: seq<seq<Turn>>, gone: set<Key>)
    requires LiveIdeal(net, gone) && RoundsRun(net, rounds, gone)
    ensures LiveIdeal(AfterRounds(net, rounds, gone), gone)
    decreases |rounds|
  {
    hide Ideal, View, RingTurnsRun, AfterTurns;
    if rounds == [] {
    } else {
      TurnsStayIdeal(net, rounds[0], gone);
      RoundsStayIdeal(AfterTurns(net, rounds[0], gone), rounds[1..], gone);
    }
  }
}

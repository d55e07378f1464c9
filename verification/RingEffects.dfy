/** What each operation of the ring leaves behind, field by field, in terms of what was there before. */
module RingEffects {
  import opened Circle
  import opened Ring
  import opened RingInvariant
  import opened RingStale
  import opened RingTurns
  import opened RingHops

  // ---------------------------------------------------------------- lookups

  /** Entry j of the table of x is set and lies before id. */
  ghost predicate UsableEntry(net: Net, x: Key, id: Key, j: nat)
    requires WellFormed(net) && x in net && j < KEY_BITS
  {
    Finger(net, x, j).Some? && Inside(Finger(net, x, j).value, x, id)
  }

  /** y is the highest entry of the table of x that lies before id. */
  ghost predicate HighestBefore(net: Net, x: Key, id: Key, y: Key)
    requires WellFormed(net) && x in net
  {
    exists j: nat :: IsHighest(net, x, id, j) && Finger(net, x, j) == Some(y)
  }

  ghost predicate IsHighest(net: Net, x: Key, id: Key, j: nat)
    requires WellFormed(net) && x in net
  {
    && j < KEY_BITS && UsableEntry(net, x, id, j)
    && forall i: nat :: j < i < KEY_BITS ==> !UsableEntry(net, x, id, i)
  }

  ghost predicate Before(e: Option<Key>, self: Key, id: Key) {
    e.Some? && Inside(e.value, self, id)
  }

  ghost predicate HighestAt(finger: seq<Option<Key>>, self: Key, id: Key, top: nat, j: nat) {
    && j < top <= |finger| && Before(finger[j], self, id)
    && forall i :: j < i < top ==> !Before(finger[i], self, id)
  }

  lemma {:induction false} ScanExactly(finger: seq<Option<Key>>, self: Key, id: Key, top: nat)
    requires top <= |finger|
    ensures match ScanFingers(finger, self, id, top)
      case Some(x) => exists j: nat :: HighestAt(finger, self, id, top, j) && finger[j] == Some(x)
      case None => forall i :: 0 <= i < top ==> !Before(finger[i], self, id)
  {
    hide Inside;
    if top == 0 {
    } else if Before(finger[top - 1], self, id) {
      assert HighestAt(finger, self, id, top, top - 1);
    } else {
      ScanExactly(finger, self, id, top - 1);
      var r := ScanFingers(finger, self, id, top - 1);
      if r.Some? {
        var j: nat :| HighestAt(finger, self, id, top - 1, j) && finger[j] == r;
        assert HighestAt(finger, self, id, top, j);
      }
    }
  }

  /** The scan of a table returns its highest usable entry, and nothing exactly when there is none. */
  lemma ClosestExactly(net: Net, x: Key, id: Key)
    requires WellFormed(net) && x in net
    ensures forall y: Key :: ClosestPreceding(net, x, id) == Some(y) <==> HighestBefore(net, x, id, y)
    ensures ClosestPreceding(net, x, id) == None <==> forall j: nat :: j < KEY_BITS ==> !UsableEntry(net, x, id, j)
  {
    hide UsableEntry, Finger;
    var r := ClosestPreceding(net, x, id);
    ClosestIs(net, x, id);
    forall y: Key ensures r == Some(y) <==> HighestBefore(net, x, id, y) {
      if HighestBefore(net, x, id, y) {
        var j: nat :| IsHighest(net, x, id, j) && Finger(net, x, j) == Some(y);
        if r.Some? {
          var i: nat :| IsHighest(net, x, id, i) && Finger(net, x, i) == r;
          OneHighest(net, x, id, i, j);
        }
      }
    }
  }

  lemma OneHighest(net: Net, x: Key, id: Key, i: nat, j: nat)
    requires WellFormed(net) && x in net && IsHighest(net, x, id, i) && IsHighest(net, x, id, j)
    ensures i == j
  {
    hide UsableEntry;
    assert UsableEntry(net, x, id, i) && UsableEntry(net, x, id, j);
  }

  lemma ClosestIs(net: Net, x: Key, id: Key)
    requires WellFormed(net) && x in net
    ensures match ClosestPreceding(net, x, id)
      case Some(y) => HighestBefore(net, x, id, y)
      case None => forall j: nat :: j < KEY_BITS ==> !UsableEntry(net, x, id, j)
  {
    hide ScanFingers, Inside;
    assert WellFormedAt(net, x);
    var finger, top := net[x].finger, KEY_BITS - 1;
    ScanExactly(finger, x, id, top);
    var r := ScanFingers(finger, x, id, top);
    assert forall i :: 0 <= i < top ==> Finger(net, x, i + 1) == finger[i];
    assert forall i: nat :: 1 <= i < KEY_BITS ==> Finger(net, x, i) == finger[i - 1];
    if r.Some? {
      var j: nat :| HighestAt(finger, x, id, top, j) && finger[j] == r;
      assert UsableEntry(net, x, id, j + 1) && IsHighest(net, x, id, j + 1);
    } else if Inside(net[x].succ, x, id) {
      assert UsableEntry(net, x, id, 0) && IsHighest(net, x, id, 0);
    }
  }

  /** The members that the lookup for id asks, from the first to the one whose arc contains id. */
  ghost predicate IsLookup(net: Net, id: Key, path: seq<Key>)
    requires WellFormed(net)
  {
    && path != [] && (forall i :: 0 <= i < |path| ==> path[i] in net)
    && (forall i :: 0 <= i < |path| ==> (InsideOrEnd(id, path[i], Succ(net, path[i])) <==> i == |path| - 1))
    && forall i :: 0 <= i < |path| - 1 ==> HighestBefore(net, path[i], id, path[i + 1])
  }

  lemma LookupGoesOn(net: Net, n: Key, id: Key, path: seq<Key>)
    requires WellFormed(net) && n in net && IsLookup(net, id, path)
    requires !InsideOrEnd(id, n, Succ(net, n)) && HighestBefore(net, n, id, path[0])
    ensures IsLookup(net, id, [n] + path)
  {
    hide HighestBefore, InsideOrEnd, WellFormedAt;
    var all := [n] + path;
    forall i | 0 <= i < |all|
      ensures all[i] in net && (InsideOrEnd(id, all[i], Succ(net, all[i])) <==> i == |all| - 1)
    {
      assert i > 0 ==> all[i] == path[i - 1];
    }
    forall i | 0 <= i < |all| - 1 ensures HighestBefore(net, all[i], id, all[i + 1]) {
      assert i > 0 ==> all[i] == path[i - 1] && all[i + 1] == path[i];
    }
  }

  /** On any ring a lookup goes from each member to the highest usable entry of its table, and ends at
      the first member whose arc to its successor contains the id. */
  lemma {:induction false} LookupPath(net: Net, n: Key, id: Key) returns (path: seq<Key>)
    requires WellFormed(net) && n in net && n != id
    ensures IsLookup(net, id, path) && path[0] == n && path[|path| - 1] == LookupPrev(net, n, id)
    ensures FindNext(net, n, id) == Succ(net, path[|path| - 1])
    ensures FindPrev(net, n, id) == Some(path[|path| - 1]) && |path| == Hops(net, n, id) + 1
    decreases Dist(n, id)
  {
    hide HighestBefore, ScanPeer, WellFormedAt;
    if InsideOrEnd(id, n, Succ(net, n)) {
      path := [n];
    } else {
      ClosestExactly(net, n, id);
      var next := ClosestPreceding(net, n, id).value;
      var rest := LookupPath(net, next, id);
      LookupGoesOn(net, n, id, rest);
      path := [n] + rest;
    }
  }

  // ---------------------------------------------------------------- notifications

  ghost predicate Live(e: Option<Key>, gone: set<Key>) {
    e.Some? && e.value !in gone
  }

  /** The predecessor that s has after it has heard from k. */
  ghost predicate HeardPrev(before: Option<Key>, after: Option<Key>, s: Key, k: Key, gone: set<Key>) {
    after == if Live(before, gone) && !Inside(k, before.value, s) then before else Some(k)
  }

  ghost predicate HasHeard(before: Peer, after: Peer, s: Key, k: Key, gone: set<Key>) {
    after.succ == before.succ && after.finger == before.finger && HeardPrev(before.prev, after.prev, s, k, gone)
  }

  /** A notification changes one predecessor at most, and nothing else. */
  lemma HeardExactly(net: Net, s: Key, k: Key, gone: set<Key>)
    requires s in net
    ensures var after := Heard(net, s, k, gone);
      && after.Keys == net.Keys && (forall m :: m in net && m != s ==> after[m] == net[m])
      && after[s].succ == net[s].succ && after[s].finger == net[s].finger
      && after[s].prev == (if net[s].prev.Some? && net[s].prev.value !in gone && !Inside(k, net[s].prev.value, s)
                           then net[s].prev else Some(k))
      && HasHeard(net[s], after[s], s, k, gone)
  {
  }

  /** A node that tells its successor of itself changes that one alone. */
  lemma NotifyExactly(net: Net, n: Key)
    requires WellFormed(net) && n in net
    ensures var s, after := Succ(net, n), Apply(net, Notify(n));
      && after.Keys == net.Keys && (forall m :: m in net && m != s ==> after[m] == net[m])
      && HasHeard(net[s], after[s], s, n, {})
  {
  }

  /** A newcomer knows its successor alone, and of the others that successor alone hears of it. */
  lemma JoinedExactly(net: Net, n: Key, peer: Key)
    requires WellFormed(net) && peer in net && n !in net
    ensures var s, after := FindNext(net, peer, n), Joined(net, n, peer);
      && s in net && after.Keys == net.Keys + {n}
      && after[n] == Peer(s, None, NoFingers())
      && (forall m :: m in net && m != s ==> after[m] == net[m])
      && HasHeard(net[s], after[s], s, n, {})
  {
  }

  /** A stabilization moves one successor at most and then tells that one; everything else is as it
      was. */
  lemma StabilizingExactly(net: Net, k: Key, gone: set<Key>)
    requires WellFormed(net) && k in net && CanStabilize(net, k, gone)
    ensures var s, after := Succ(net, k), Stabilizing(net, k, gone);
      && net[s].prev.Some? && after.Keys == net.Keys
      && var p := net[s].prev.value;
         var t := if Inside(p, k, s) then p else s;
         && t in net && after[k].succ == t
         && (forall m :: m in net ==> after[m].finger == net[m].finger && (m != k ==> after[m].succ == net[m].succ))
         && (forall m :: m in net && m != t ==> after[m].prev == net[m].prev)
         && HeardPrev(net[t].prev, after[t].prev, t, k, gone)
  {
    var s := Succ(net, k);
    assert WellFormedAt(net, s);
  }

  /** The same with an answer p that s gave some time ago; with the answer it would give now it is the
      stabilization. */
  lemma StaleExactly(net: Net, n: Key, s: Key, p: Key)
    requires WellFormed(net) && n in net && s in net && p in net
    ensures var after, t := StabilizedWith(net, n, s, p), if Inside(p, n, s) then p else s;
      && after.Keys == net.Keys && after[n].succ == (if Inside(p, n, s) then p else net[n].succ)
      && (forall m :: m in net ==> after[m].finger == net[m].finger && (m != n ==> after[m].succ == net[m].succ))
      && (forall m :: m in net && m != t ==> after[m].prev == net[m].prev)
      && HeardPrev(net[t].prev, after[t].prev, t, n, {})
    ensures s == Succ(net, n) && net[s].prev == Some(p) ==> StabilizedWith(net, n, s, p) == Stabilized(net, n)
  {
  }

  // ---------------------------------------------------------------- the check

  /** The lowest entry that answers. */
  ghost predicate LowestLive(finger: seq<Option<Key>>, gone: set<Key>, x: Key) {
    exists j ::
      0 <= j < |finger| && finger[j] == Some(x) && x !in gone && forall i :: 0 <= i < j ==> !Live(finger[i], gone)
  }

  /** x takes the place of a lost successor: the lowest finger that answers, or else the predecessor. */
  ghost predicate Replaces(peer: Peer, gone: set<Key>, x: Key) {
    || LowestLive(peer.finger, gone, x)
    || ((forall j :: 0 <= j < |peer.finger| ==> !Live(peer.finger[j], gone)) && x !in gone && peer.prev == Some(x))
  }

  lemma {:induction false} FirstAliveExactly(finger: seq<Option<Key>>, gone: set<Key>, i: nat)
    requires i <= |finger|
    ensures match FirstAlive(finger, gone, i)
      case Some(x) => exists j :: i <= j < |finger| && finger[j] == Some(x) && x !in gone
                                  && forall k :: i <= k < j ==> !Live(finger[k], gone)
      case None => forall j :: i <= j < |finger| ==> !Live(finger[j], gone)
    decreases |finger| - i
  {
    if i == |finger| {
    } else if Live(finger[i], gone) {
      assert FirstAlive(finger, gone, i) == finger[i];
    } else {
      FirstAliveExactly(finger, gone, i + 1);
    }
  }

  lemma SpareExactly(peer: Peer, gone: set<Key>)
    ensures forall x: Key :: Spare(peer, gone) == Some(x) <==> Replaces(peer, gone, x)
  {
    hide FirstAlive;
    FirstAliveExactly(peer.finger, gone, 0);
  }

  /** The check unsets the pointers of k that do not answer and replaces a lost successor, which is
      told unless it is k itself. */
  lemma CheckedExactly(net: Net, k: Key, gone: set<Key>)
    requires WellFormed(net) && k in net && !Stranded(net[k], gone)
    ensures var after := Checked(net, k, gone);
      && after.Keys == net.Keys
      && |after[k].finger| == |net[k].finger|
      && (forall j :: 0 <= j < |net[k].finger| ==>
            after[k].finger[j] == if Live(net[k].finger[j], gone) then net[k].finger[j] else None)
      && (forall m :: m in net && m != k ==> after[m].succ == net[m].succ && after[m].finger == net[m].finger)
      && var s := after[k].succ;
         && s in net
         && (if net[k].succ in gone then Replaces(net[k], gone, s) else s == net[k].succ)
         && (forall m :: m in net && m != k && (m != s || net[k].succ !in gone) ==> after[m].prev == net[m].prev)
         && (net[k].succ in gone && s != k ==> HasHeard(net[s], after[s], s, k, gone))
         && after[k].prev == if Live(net[k].prev, gone) then net[k].prev else None
  {
    hide FirstAlive, Spare, Replaces;
    assert WellFormedAt(net, k);
    var me := Cleaned(net[k], gone);
    SpareExactly(net[k], gone);
    CleanedForm(net, k, gone, me);
    HeardExactly(net[k := me], me.succ, k, gone);
  }

  // ---------------------------------------------------------------- repairs and whole turns

  lemma NoRepair(net: Net, k: Key)
    requires WellFormed(net) && k in net
    ensures Repairing(net, k, []) == net
  {
  }

  /** after is mid with entry i of k set to target. */
  ghost predicate OneRepair(mid: Net, after: Net, k: Key, i: nat, target: Key)
    requires k in mid
  {
    && after.Keys == mid.Keys && (forall m :: m in mid && m != k ==> after[m] == mid[m])
    && after[k].succ == mid[k].succ && after[k].prev == mid[k].prev
    && |after[k].finger| == |mid[k].finger|
    && forall j :: 0 <= j < |mid[k].finger| ==>
         after[k].finger[j] == if j == i - 1 then Some(target) else mid[k].finger[j]
  }

  lemma FixedExactly(net: Net, k: Key, i: nat, start: Key)
    requires WellFormed(net) && k in net && 1 <= i < KEY_BITS
    ensures OneRepair(net, FixedFinger(net, k, i, start), k, i, FindNext(net, k, start))
  {
    assert WellFormedAt(net, k);
  }

  /** The last of several repairs looks its target up in what the ones before it have made. */
  lemma {:induction false} RepairsOneMore(net: Net, k: Key, repairs: seq<Repair>, r: Repair)
    requires WellFormed(net) && k in net && 1 <= r.i < KEY_BITS
    ensures var mid := Repairing(net, k, repairs);
      OneRepair(mid, Repairing(net, k, repairs + [r]), k, r.i, FindNext(mid, k, r.start))
    decreases |repairs|
  {
    hide LookupPrev, OneRepair, WellFormedAt;
    var more := repairs + [r];
    if repairs == [] {
      assert more[0] == r && more[1..] == [];
      FixedExactly(net, k, r.i, r.start);
      SetFingerEffect(net, k, r.i, FindNext(net, k, r.start));
      NoRepair(FixedFinger(net, k, r.i, r.start), k);
    } else {
      var q := repairs[0];
      assert more[0] == q && more[1..] == repairs[1..] + [r];
      if 1 <= q.i < KEY_BITS {
        SetFingerEffect(net, k, q.i, FindNext(net, k, q.start));
        RepairsOneMore(FixedFinger(net, k, q.i, q.start), k, repairs[1..], r);
      } else {
        RepairsOneMore(net, k, repairs[1..], r);
      }
    }
  }

  lemma {:induction false} RunsOneLess(net: Net, k: Key, repairs: seq<Repair>, r: Repair, gone: set<Key>)
    requires WellFormed(net) && k in net && CanRepairAll(net, k, repairs + [r], gone)
    ensures CanRepairAll(net, k, repairs, gone) && 1 <= r.i < KEY_BITS
    decreases |repairs|
  {
    hide LookupPrev, Answered, WellFormedAt;
    var more := repairs + [r];
    if repairs == [] {
      assert more[0] == r;
    } else {
      assert more[0] == repairs[0] && more[1..] == repairs[1..] + [r];
      SetFingerEffect(net, k, repairs[0].i, FindNext(net, k, repairs[0].start));
      RunsOneLess(FixedFinger(net, k, repairs[0].i, repairs[0].start), k, repairs[1..], r, gone);
    }
  }

  /** A turn without repairs is the check and the stabilization. */
  lemma TurnBegins(net: Net, k: Key, gone: set<Key>)
    requires WellFormed(net) && RingTurnRuns(net, k, [], gone)
    ensures WellFormed(Checked(net, k, gone)) && CanStabilize(Checked(net, k, gone), k, gone)
    ensures RingTurn(net, k, [], gone) == Stabilizing(Checked(net, k, gone), k, gone)
  {
    hide Checked, CanStabilize, Stabilizing;
    CheckedForm(net, k, gone);
    StabilizingForm(Checked(net, k, gone), k, gone);
    NoRepair(Stabilizing(Checked(net, k, gone), k, gone), k);
  }

  /** Each repair of a turn sets its entry to the node that is found for its start key in the ring as
      it is by then, and leaves everything else as it is. */
  lemma TurnRepairs(net: Net, k: Key, repairs: seq<Repair>, r: Repair, gone: set<Key>)
    requires WellFormed(net) && RingTurnRuns(net, k, repairs + [r], gone)
    ensures RingTurnRuns(net, k, repairs, gone) && 1 <= r.i < KEY_BITS
    ensures var mid := RingTurn(net, k, repairs, gone);
      OneRepair(mid, RingTurn(net, k, repairs + [r], gone), k, r.i, FindNext(mid, k, r.start))
  {
    hide Checked, CanStabilize, Stabilizing, CanRepairAll, Repairing, OneRepair, LookupPrev;
    CheckedForm(net, k, gone);
    StabilizingForm(Checked(net, k, gone), k, gone);
    var mid := Stabilizing(Checked(net, k, gone), k, gone);
    RunsOneLess(mid, k, repairs, r, gone);
    RepairsOneMore(mid, k, repairs, r);
  }
}

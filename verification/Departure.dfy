/** The time after a departure: which turns run to their end, and that some always close the gap. */
module Departure {
  import opened Circle
  import opened Ring
  import opened RingInvariant
  import opened RingConvergence
  import opened RingLookup
  import opened RingTurns
  import opened RingRepair
  import opened SortedSeq
  import opened TorrentFile
  import opened Ownership
  import opened Placement
  import opened Upkeep

  // ---------------------------------------------------------------- before p has noticed

  /** Everybody left has what it owned before, and s has the files of n as well. */
  ghost predicate Inherited(w: World, cat: Catalogue, n: Key, s: Key) {
    && Spread(w, cat) && Empty(w, {n}) && n in w.net
    && forall k, e :: k in w.stores && k != n && e in w.stores[k] ==>
         IsOwner(w.net.Keys, e.id, k) || (k == s && IsOwner(w.net.Keys, e.id, n))
  }

  /** Some file at s was handed over by n. */
  ghost predicate HandedOver(w: World, n: Key, s: Key) {
    exists e :: s in w.stores && e in w.stores[s] && IsOwner(w.net.Keys, e.id, n)
  }

  lemma DepartedInherited(w: World, cat: Catalogue, n: Key)
    requires Refines(w, cat) && n in w.net && Succ(w.net, n) != n
    ensures Departed(w, n).net == w.net && Departed(w, n).stores.Keys == w.stores.Keys
    ensures Inherited(Departed(w, n), cat, n, Succ(w.net, n))
    ensures HandedOver(Departed(w, n), n, Succ(w.net, n)) <==> w.stores[n] != []
  {
    hide Loaded, Ascending, IsOwner, Select, IsNext, Sweep, Agrees, AllSaved, Keeps;
    var s, w0 := Succ(w.net, n), Departed(w, n);
    RefinesIsSpread(w, cat, n);
    DepartedFrame(w, n);
    BlockedByFile(w, n, ToSuccessor(s));
    SweepConserves(w, n, ToSuccessor(s), cat);
    HandoverAt(w, cat, n, n);
    forall k, e | k in w0.stores && k != n && e in w0.stores[k]
      ensures IsOwner(w.net.Keys, e.id, k) || (k == s && IsOwner(w.net.Keys, e.id, n))
    {
      HandoverAt(w, cat, n, k);
      DepartedOwner(w, cat, n, k, e);
    }
    if w.stores[n] != [] {
      var e := w.stores[n][0];
      SweepAt(w, n, ToSuccessor(s), cat, s);
      KeptIsOwned(w, cat, n, e);
      assert e in w.stores[n] && e in w0.stores[s];
    }
    if e :| e in w0.stores[s] && IsOwner(w.net.Keys, e.id, n) {
      SweepAt(w, n, ToSuccessor(s), cat, s);
      if e in w.stores[s] {
        KeptIsOwned(w, cat, s, e);
        OwnerIsUnique(w.net.Keys, e.id, n, s);
      }
    }
  }

  lemma DepartedFrame(w: World, n: Key)
    requires Ring.WellFormed(w.net) && n in w.net && n in w.stores
    ensures Departed(w, n).net == w.net && Departed(w, n).stores.Keys == w.stores.Keys
  {
  }

  lemma KeptIsOwned(w: World, cat: Catalogue, k: Key, e: Entry<File>)
    requires Refines(w, cat) && k in w.stores && e in w.stores[k]
    ensures IsOwner(w.net.Keys, e.id, k)
  {
    hide IsOwner;
    assert Keeps(w.net.Keys, cat, k, w.stores[k]);
  }

  lemma DepartedOwner(w: World, cat: Catalogue, n: Key, k: Key, e: Entry<File>)
    requires Refines(w, cat) && n in w.net && Succ(w.net, n) != n && k in w.net && k != n
    requires k in Departed(w, n).stores && e in Departed(w, n).stores[k]
    requires Keeps(w.net.Keys - {n}, cat, k, Departed(w, n).stores[k])
    ensures IsOwner(w.net.Keys, e.id, k) || (k == Succ(w.net, n) && IsOwner(w.net.Keys, e.id, n))
  {
    hide IsOwner, IsNext, Departed;
    assert IdealAt(w.net, n);
    OwnerAfterLeave(w.net.Keys, n, Succ(w.net, n), e.id, k);
  }

  /** Turned stores that hold the same files. */
  lemma InheritedStays(w: World, w': World, cat: Catalogue, n: Key, s: Key)
    requires Inherited(w, cat, n, s) && Spread(w', cat) && Empty(w', {n}) && w'.net.Keys == w.net.Keys
    requires forall m, e :: m in w.stores ==> (e in w'.stores[m] <==> e in w.stores[m])
    ensures Inherited(w', cat, n, s) && (HandedOver(w', n, s) <==> HandedOver(w, n, s))
  {
    hide IsOwner, Agrees, AllSaved, StoredIn, Empty;
  }

  /** A tracker k other than s that knows its predecessor, or s when n left nothing, sends nothing. */
  lemma QuietSettling(w: World, cat: Catalogue, n: Key, s: Key, k: Key, q: Key, stale: Key)
    requires Inherited(w, cat, n, s) && Ring.WellFormed(w.net) && k in w.net && k != n
    requires q in w.net && IsNext(w.net.Keys, q, k) && LowEnd(w.net, k, stale) == q
    requires k == s ==> !HandedOver(w, n, s)
    ensures CanSettle(w, k, stale, {n})
    ensures forall m, e :: m in w.stores ==> (e in Settled(w, k, stale).stores[m] <==> e in w.stores[m])
  {
    hide IsOwner, IsNext, InsideOrEnd, Sweep, CanSettle, Agrees, AllSaved, StoredIn;
    forall e | e in w.stores[k] ensures InsideOrEnd(e.id, LowEnd(w.net, k, stale), k) {
      OwnerByArc(w.net.Keys, q, k, e.id);
    }
    NothingSent(w, cat, k, stale, {n});
  }

  /** A turn before p has noticed: of s only when its field still contains n. */
  lemma WaitingTurn(w: World, cat: Catalogue, n: Key, p: Key, s: Key, t: Turn)
    requires Missing(w.net, n, p, s) && Inherited(w, cat, n, s)
    requires Sound(w.net, {n}, t) && t.who != p && (t.who == s ==> t.stale == n)
    ensures TurnRuns(w, t, {n}) ==>
      && Missing(Turned(w, t, {n}).net, n, p, s) && Inherited(Turned(w, t, {n}), cat, n, s)
      && (HandedOver(Turned(w, t, {n}), n, s) <==> HandedOver(w, n, s)) && (t.who == s ==> !HandedOver(w, n, s))
    ensures t.repairs == [] && (t.who == s ==> !HandedOver(w, n, s)) ==> TurnRuns(w, t, {n})
  {
    hide Missing, RingTurn, RingTurnRuns, IsOwner, IsNext, InsideOrEnd, Settled, CanSettle, Inherited, HandedOver;
    MissingForm(w.net, n, p, s);
    InheritedForm(w, cat, n, s);
    if t.repairs == [] {
      OtherTurnRuns(w.net, n, p, s, t.who);
    }
    if RingTurnRuns(w.net, t.who, t.repairs, {n}) {
      OtherTurns(w.net, n, p, s, t.who, t.repairs);
      var w1 := World(RingTurn(w.net, t.who, t.repairs, {n}), w.stores);
      SpreadOnly(w, w1, cat);
      InheritedForm2(w, w1, cat, n, s);
      WaitingSettles(w1, cat, n, p, s, t.who, t.stale);
      if TurnRuns(w, t, {n}) {
        TurnConserves(w, cat, t, {n});
        InheritedStays(w1, Turned(w, t, {n}), cat, n, s);
      }
    }
  }

  lemma InheritedForm(w: World, cat: Catalogue, n: Key, s: Key)
    requires Inherited(w, cat, n, s)
    ensures Spread(w, cat) && Empty(w, {n}) && n in w.net && w.stores.Keys == w.net.Keys
  {
  }

  lemma InheritedForm2(w: World, w1: World, cat: Catalogue, n: Key, s: Key)
    requires Inherited(w, cat, n, s) && Spread(w1, cat) && w1.stores == w.stores && w1.net.Keys == w.net.Keys
    ensures Inherited(w1, cat, n, s) && (HandedOver(w1, n, s) <==> HandedOver(w, n, s))
  {
    hide IsOwner, Spread;
  }

  lemma OtherTurnRuns(net: Net, n: Key, p: Key, s: Key, k: Key)
    requires Missing(net, n, p, s) && k in net && k != n && k != p
    ensures RingTurnRuns(net, k, [], {n})
  {
    hide MissingAt, IsNext, Checked, Stabilizing, FirstAlive;
    MissingPairs(net, n, p, s, k);
    CheckedForm(net, k, {n});
    OtherChecks(net, n, p, s, k);
    OtherStabilizes(Checked(net, k, {n}), n, p, s, k);
  }

  lemma WaitingSettles(w: World, cat: Catalogue, n: Key, p: Key, s: Key, k: Key, stale: Key)
    requires Missing(w.net, n, p, s) && Inherited(w, cat, n, s) && k in w.net && k != n
    requires k == s ==> stale == n
    ensures k in w.stores
    ensures CanSettle(w, k, stale, {n}) <==> (k == s ==> !HandedOver(w, n, s))
    ensures CanSettle(w, k, stale, {n}) ==>
      forall m, e :: m in w.stores ==> (e in Settled(w, k, stale).stores[m] <==> e in w.stores[m])
  {
    hide IsOwner, IsNext, InsideOrEnd, Settled, CanSettle, HandedOver, Inherited;
    InheritedForm(w, cat, n, s);
    assert MissingAt(w.net, n, s, k);
    if k != s {
      QuietSettling(w, cat, n, s, k, w.net[k].prev.value, stale);
    } else if HandedOver(w, n, s) {
      HandedOverFails(w, n, p, s, stale);
    } else {
      QuietSettling(w, cat, n, s, s, n, stale);
    }
  }

  /** s cannot send on what n handed over: every way to its new owner ends at n. */
  lemma HandedOverFails(w: World, n: Key, p: Key, s: Key, stale: Key)
    requires Missing(w.net, n, p, s) && s in w.stores && HandedOver(w, n, s) && LowEnd(w.net, s, stale) == n
    ensures !CanSettle(w, s, stale, {n})
  {
    hide IsOwner, LookupPrev, MissingAt;
    var e :| e in w.stores[s] && IsOwner(w.net.Keys, e.id, n);
    OwnerByArc(w.net.Keys, p, n, e.id);
    BehindOnly(e.id, p, n, s);
    if Answered(w.net, s, e.id, {n}) {
      StraightEndsAlive(w.net, s, e.id, {n});
      var c := LookupPrev(w.net, s, e.id);
      StopsAtLoser(w.net, n, p, s, c, e.id);
    }
    assert !CanSend(w.net, s, LowEnd(w.net, s, stale), e.id, {n});
  }

  lemma BehindOnly(id: Key, p: Key, n: Key, s: Key)
    requires InsideOrEnd(id, p, n) && !Inside(s, p, n) && n != s
    ensures !InsideOrEnd(id, n, s) && id != s
  {
  }

  lemma StopsAtLoser(net: Net, n: Key, p: Key, s: Key, c: Key, id: Key)
    requires Missing(net, n, p, s) && c in net && c != n && InsideOrEnd(id, c, Succ(net, c)) && InsideOrEnd(id, p, n)
    ensures Succ(net, c) == n
  {
    assert MissingAt(net, n, s, c) && MissingAt(net, n, s, p);
    NextIsUnique(net.Keys, p, n, Succ(net, p));
    NextOwnsArc(net.Keys, c, Succ(net, c), id);
    NextOwnsArc(net.Keys, p, n, id);
    OwnerIsUnique(net.Keys, id, n, Succ(net, c));
  }

  /** After a departure, turns in which the predecessor p of the leaver has no part: when the
      successor s has a turn, they run to their end only if the leaver had no file; without repairs
      this is exactly the condition. The field of s still contains the leaver. */
  lemma {:induction false} WaitingTurns(w: World, cat: Catalogue, n: Key, p: Key, s: Key, turns: seq<Turn>)
    requires Missing(w.net, n, p, s) && Inherited(w, cat, n, s)
    requires forall i :: 0 <= i < |turns| ==>
      Sound(w.net, {n}, turns[i]) && turns[i].who != p && (turns[i].who == s ==> turns[i].stale == n)
    ensures TurnsRun(w, turns, {n}) && TakesTurn(turns, s) ==> !HandedOver(w, n, s)
    ensures (forall i :: 0 <= i < |turns| ==> turns[i].repairs == []) && (TakesTurn(turns, s) ==> !HandedOver(w, n, s))
      ==> TurnsRun(w, turns, {n})
    decreases |turns|
  {
    hide Missing, Inherited, HandedOver, TurnRuns, Turned;
    if turns == [] {
    } else {
      var t, rest := turns[0], turns[1..];
      MissingForm(w.net, n, p, s);
      WaitingTurn(w, cat, n, p, s, t);
      TakesTurnSplit(turns, s);
      if TurnRuns(w, t, {n}) {
        WaitingTurns(Turned(w, t, {n}), cat, n, p, s, rest);
      }
    }
  }

  lemma TakesTurnSplit(turns: seq<Turn>, k: Key)
    requires turns != []
    ensures TakesTurn(turns, k) <==> turns[0].who == k || TakesTurn(turns[1..], k)
  {
    if i :| 0 <= i < |turns| && turns[i].who == k {
      assert i > 0 ==> turns[1..][i - 1].who == k;
    }
    if i :| 0 <= i < |turns| - 1 && turns[1..][i].who == k {
      assert turns[i + 1].who == k;
    }
  }

  /** When one of three or more leaves, and its successor has a turn before its predecessor has one,
      then the turns run to their end exactly if there was nothing to hand over. */
  lemma LeaveBlocksIff(w: World, cat: Catalogue, n: Key, turns: seq<Turn>)
    requires Refines(w, cat) && n in w.net && Succ(w.net, n) != n && Third(w.net, n)
    requires (assert IdealAt(w.net, n); !TakesTurn(turns, w.net[n].prev.value)) && TakesTurn(turns, Succ(w.net, n))
    requires forall i :: 0 <= i < |turns| ==>
      Sound(w.net, {n}, turns[i]) && (turns[i].who == Succ(w.net, n) ==> turns[i].stale == n)
    ensures TurnsRun(Departed(w, n), turns, {n}) ==> w.stores[n] == []
    ensures (forall i :: 0 <= i < |turns| ==> turns[i].repairs == []) && w.stores[n] == [] ==>
      TurnsRun(Departed(w, n), turns, {n})
  {
    hide Missing, Inherited, HandedOver, TurnsRun, Departed;
    var p, s := MissingFrom(w.net, n);
    DepartedInherited(w, cat, n);
    forall i | 0 <= i < |turns| ensures turns[i].who != p {
      assert turns[i].who == p ==> TakesTurn(turns, p);
    }
    WaitingTurns(Departed(w, n), cat, n, p, s, turns);
  }

  // ---------------------------------------------------------------- p closes the gap

  ghost predicate ClosingAt(net: Net, n: Key, p: Key, s: Key, x: Key, k: Key)
    requires Ring.WellFormed(net) && k in net
  {
    && (k != p ==> IsNext(net.Keys, k, Succ(net, k)))
    && (k != s ==> net[k].prev.Some? && net[k].prev.value in net && IsNext(net.Keys, net[k].prev.value, k))
    && (k == s ==> if x == s then net[k].prev == Some(p) else net[k].prev == None || net[k].prev == Some(n))
  }

  /** p has taken x for its successor; all others are as they were. */
  ghost predicate Closing(net: Net, n: Key, p: Key, s: Key, x: Key) {
    && Ring.WellFormed(net) && n in net && p in net && s in net && x in net
    && n != p && n != s && p != s && x != n && Succ(net, p) == x
    && IsNext(net.Keys, p, n) && IsNext(net.Keys, n, s)
    && forall k {:trigger ClosingAt(net, n, p, s, x, k)} :: k in net && k != n ==> ClosingAt(net, n, p, s, x, k)
  }

  lemma ClosingForm(net: Net, n: Key, p: Key, s: Key, x: Key)
    requires Closing(net, n, p, s, x)
    ensures Ring.WellFormed(net) && n in net && p in net && s in net && x in net
    ensures n != p && n != s && p != s && x != n && Succ(net, p) == x
  {
  }

  lemma ClosingPairs(net: Net, n: Key, p: Key, s: Key, x: Key, k: Key)
    requires Closing(net, n, p, s, x) && k in net && k != n
    ensures Succ(net, k) != n && (k != p ==> Succ(net, k) != s)
    ensures net[k].prev == Some(n) ==> k == s
  {
    assert ClosingAt(net, n, p, s, x, k);
    if k != p && Succ(net, k) == n {
      PrevIsUnique(net.Keys, n, k, p);
    }
    if k != p && Succ(net, k) == s {
      PrevIsUnique(net.Keys, s, k, n);
    }
    if k != s && net[k].prev == Some(n) {
      NextIsUnique(net.Keys, n, k, s);
    }
  }

  lemma ClosingStarts(net: Net, n: Key, p: Key, s: Key) returns (x: Key)
    requires Missing(net, n, p, s)
    ensures Closing(Checked(net, p, {n}), n, p, s, x) && LiveInv(Checked(net, p, {n}), {n}, x)
    ensures !Stranded(net[p], {n})
  {
    hide FirstAlive, Spare, Checked, Inv, View, IsNext, Cleaned;
    x := LoserFinds(net, n, p, s);
    LoserShape(net, n, p, s, x);
    LoserChecks(net, n, p, s, x);
    var after := Checked(net, p, {n});
    forall k | k in after && k != n ensures ClosingAt(after, n, p, s, x, k) {
      assert MissingAt(net, n, s, k);
    }
  }

  lemma ClosingFrame(net: Net, net': Net, n: Key, p: Key, s: Key, x: Key)
    requires Closing(net, n, p, s, x) && SameShape(net, net')
    ensures Closing(net', n, p, s, x)
  {
    hide IsNext;
    assert Succ(net', p) == Succ(net, p);
    forall k | k in net' && k != n ensures ClosingAt(net', n, p, s, x, k) {
      assert ClosingAt(net, n, p, s, x, k);
      assert Succ(net', k) == Succ(net, k) && net'[k].prev == net[k].prev;
    }
  }

  lemma ClosingChecks(net: Net, n: Key, p: Key, s: Key, x: Key)
    requires Closing(net, n, p, s, x)
    ensures Closing(Checked(net, p, {n}), n, p, s, x) && !Stranded(net[p], {n})
  {
    hide FirstAlive, IsNext, ClosingAt;
    ClosingPairs(net, n, p, s, x, p);
    CheckedForm(net, p, {n});
    var after := Checked(net, p, {n});
    assert after == net[p := Cleaned(net[p], {n})];
    assert after[p].prev == net[p].prev by {
      assert ClosingAt(net, n, p, s, x, p);
    }
    forall k | k in net ensures Succ(after, k) == Succ(net, k) && after[k].prev == net[k].prev {
    }
    ClosingFrame(net, after, n, p, s, x);
  }

  /** One stabilization of p brings it one member nearer to s. */
  lemma ClosingStabilizes(net: Net, n: Key, p: Key, s: Key, x: Key) returns (x': Key)
    requires Closing(net, n, p, s, x)
    ensures CanStabilize(net, p, {n}) && Closing(Stabilizing(net, p, {n}), n, p, s, x')
    ensures x == s ==> x' == s
    ensures x != s ==> Dist(p, x') < Dist(p, x)
  {
    ClosingPairs(net, n, p, s, x, p);
    assert ClosingAt(net, n, p, s, x, x) && ClosingAt(net, n, p, s, x, p);
    if x == s {
      x' := s;
      LastStep(net, n, p, s);
    } else {
      x' := net[x].prev.value;
      ClosingPairs(net, n, p, s, x, x);
      Nearest(net, n, p, s, x, x');
      ClosingStep(net, n, p, s, x, x');
    }
  }

  lemma LastStep(net: Net, n: Key, p: Key, s: Key)
    requires Closing(net, n, p, s, s)
    ensures CanStabilize(net, p, {n}) && Stabilizing(net, p, {n}) == net
  {
    assert ClosingAt(net, n, p, s, s, s);
  }

  /** The member before x lies between p and x, because behind p there is only n before s. */
  lemma Nearest(net: Net, n: Key, p: Key, s: Key, x: Key, q: Key)
    requires Closing(net, n, p, s, x) && x != s && net[x].prev == Some(q)
    ensures Inside(q, p, x) && q != n && q in net
  {
    ClosingPairs(net, n, p, s, x, x);
    assert ClosingAt(net, n, p, s, x, x);
    if q == p {
      NextIsUnique(net.Keys, p, x, n);
    }
    if x != p {
      assert !Inside(p, q, x);
      BetweenOrSame(p, q, x);
    }
  }

  lemma BetweenOrSame(p: Key, q: Key, x: Key)
    requires !Inside(p, q, x) && q != p && x != p
    ensures Inside(q, p, x)
  {
  }

  lemma ClosingStep(net: Net, n: Key, p: Key, s: Key, x: Key, q: Key)
    requires Closing(net, n, p, s, x) && x != s && net[x].prev == Some(q) && Inside(q, p, x) && q != n && q in net
    ensures CanStabilize(net, p, {n}) && Closing(Stabilizing(net, p, {n}), n, p, s, q)
  {
    hide IsNext, ClosingAt, Inside;
    ClosingForm(net, n, p, s, x);
    StabilizingForm(net, p, {n});
    var after := Stabilizing(net, p, {n});
    StepShape(net, n, p, s, x, q);
    forall k | k in after && k != n ensures ClosingAt(after, n, p, s, q, k) {
      StepAt(net, after, n, p, s, x, q, k);
    }
  }

  /** What that stabilization changes. */
  lemma StepShape(net: Net, n: Key, p: Key, s: Key, x: Key, q: Key)
    requires Closing(net, n, p, s, x) && x != s && net[x].prev == Some(q) && Inside(q, p, x) && q != n && q in net
    requires CanStabilize(net, p, {n}) && Ring.WellFormed(Stabilizing(net, p, {n}))
    ensures var after := Stabilizing(net, p, {n});
      && after.Keys == net.Keys
      && (forall k {:trigger Succ(after, k)} :: k in net ==> Succ(after, k) == if k == p then q else Succ(net, k))
      && (forall k {:trigger after[k]} :: k in net ==>
            after[k].prev == if k == s && q == s then Some(p) else net[k].prev)
  {
    hide IsNext, ClosingAt;
    SetSuccEffect(net, p, q);
    var net1, after := SetSucc(net, p, q), Stabilizing(net, p, {n});
    assert net1[q].prev == net[q].prev;
    if q != s {
      HeardNothing(net, n, p, s, x, q);
      assert after == net1;
    } else {
      SuccessorUnaware(net, n, p, s, x);
      assert after == net1[s := net1[s].(prev := Some(p))];
    }
    forall k | k in after ensures Succ(after, k) == if k == p then q else Succ(net, k) {
      assert Succ(net1, k) == if k == p then q else Succ(net, k);
    }
  }

  lemma SuccessorUnaware(net: Net, n: Key, p: Key, s: Key, x: Key)
    requires Closing(net, n, p, s, x) && x != s
    ensures net[s].prev == None || net[s].prev == Some(n)
  {
    assert ClosingAt(net, n, p, s, x, s);
  }

  lemma StepAt(net: Net, after: Net, n: Key, p: Key, s: Key, x: Key, q: Key, k: Key)
    requires Closing(net, n, p, s, x) && x != s && Ring.WellFormed(after) && after.Keys == net.Keys
    requires k in net && k != n && (k != p ==> Succ(after, k) == Succ(net, k))
    requires after[k].prev == if k == s && q == s then Some(p) else net[k].prev
    ensures ClosingAt(after, n, p, s, q, k)
  {
    hide IsNext;
    assert ClosingAt(net, n, p, s, x, k);
  }

  lemma HeardNothing(net: Net, n: Key, p: Key, s: Key, x: Key, q: Key)
    requires Closing(net, n, p, s, x) && q in net && q != s && q != n
    ensures net[q].prev.Some? && net[q].prev.value != n && !Inside(p, net[q].prev.value, q)
  {
    ClosingPairs(net, n, p, s, x, q);
    assert ClosingAt(net, n, p, s, x, q);
  }

  /** Once p has s for its successor the ring of those left is ideal. */
  lemma Closed(net: Net, n: Key, p: Key, s: Key)
    requires Closing(net, n, p, s, s)
    ensures LiveIdeal(net, {n})
  {
    forall k | k in net && k !in {n} ensures Succ(net, k) !in {n} {
      ClosingPairs(net, n, p, s, s, k);
    }
    ViewForm(net, {n});
    var v := View(net, {n});
    forall k | k in v ensures IdealAt(v, k) {
      ClosedAt(net, n, p, s, k);
    }
  }

  lemma ClosedAt(net: Net, n: Key, p: Key, s: Key, k: Key)
    requires Closing(net, n, p, s, s) && Led(net, {n}) && k in ViewOf(net, {n})
    ensures IdealAt(ViewOf(net, {n}), k)
  {
    hide IsNext, Closing;
    ClosingForm(net, n, p, s, s);
    ViewForm(net, {n});
    ClosingPairs(net, n, p, s, s, k);
    var v := ViewOf(net, {n});
    assert v.Keys == net.Keys - {n} && Succ(v, k) == Succ(net, k);
    ClosedNexts(net, n, p, s, k);
  }

  lemma ClosedNexts(net: Net, n: Key, p: Key, s: Key, k: Key)
    requires Closing(net, n, p, s, s) && k in net && k != n
    ensures IsNext(net.Keys - {n}, k, Succ(net, k)) && net[k].prev.Some? && net[k].prev.value != n
    ensures IsNext(net.Keys - {n}, net[k].prev.value, k)
  {
    hide IsNext;
    ClosingPairs(net, n, p, s, s, k);
    assert ClosingAt(net, n, p, s, s, k);
    WithoutMiddle(net.Keys, p, n, s);
    if k != p {
      WithoutOther(net.Keys, n, k, Succ(net, k));
    }
    if k != s {
      WithoutOther(net.Keys, n, net[k].prev.value, k);
    }
  }

  lemma WithoutOther(members: set<Key>, n: Key, k: Key, t: Key)
    requires IsNext(members, k, t) && t != n
    ensures IsNext(members - {n}, k, t)
  {
  }

  lemma WithoutMiddle(members: set<Key>, p: Key, n: Key, s: Key)
    requires IsNext(members, p, n) && IsNext(members, n, s) && p in members && n != s && n != p
    ensures IsNext(members - {n}, p, s)
  {
    forall m | m in members - {n} ensures !Inside(m, p, s) {
      assert !Inside(m, p, n) && !Inside(m, n, s);
    }
  }

  // ---------------------------------------------------------------- some turns always do it

  /** What is left of a turn without repairs. */
  lemma PlainTurn(net: Net, k: Key, gone: set<Key>)
    requires Ring.WellFormed(net) && k in net && k !in gone && !Stranded(net[k], gone)
    requires (CheckedForm(net, k, gone); CanStabilize(Checked(net, k, gone), k, gone))
    ensures RingTurnRuns(net, k, [], gone)
    ensures RingTurn(net, k, [], gone) == Stabilizing(Checked(net, k, gone), k, gone)
  {
    CheckedForm(net, k, gone);
    StabilizingForm(Checked(net, k, gone), k, gone);
  }

  /** A turn of p once it has taken some successor. */
  lemma ClosingTurn(net: Net, n: Key, p: Key, s: Key, x: Key, founder: Key) returns (x': Key)
    requires Closing(net, n, p, s, x) && LiveInv(net, {n}, founder)
    ensures RingTurnRuns(net, p, [], {n}) && Closing(RingTurn(net, p, [], {n}), n, p, s, x')
    ensures LiveInv(RingTurn(net, p, [], {n}), {n}, founder)
    ensures x' == s || Dist(p, x') < Dist(p, x)
  {
    hide Closing, Inv, View, Led, Checked, Stabilizing, CanStabilize, RingTurn, RingTurnRuns;
    ClosingForm(net, n, p, s, x);
    ClosingChecks(net, n, p, s, x);
    CheckedForm(net, p, {n});
    CheckUnseen(net, p, {n});
    var checked := Checked(net, p, {n});
    x' := ClosingStabilizes(checked, n, p, s, x);
    PlainTurn(net, p, {n});
    TurnSeen(net, p, [], {n}, founder);
  }

  /** The first turn of p after the departure. */
  lemma FirstClosingTurn(net: Net, n: Key, p: Key, s: Key) returns (x: Key, founder: Key)
    requires Missing(net, n, p, s)
    ensures RingTurnRuns(net, p, [], {n}) && Closing(RingTurn(net, p, [], {n}), n, p, s, x)
    ensures LiveInv(RingTurn(net, p, [], {n}), {n}, founder)
  {
    hide Missing, Closing, Inv, View, Led, Checked, Stabilizing, CanStabilize, RingTurn, RingTurnRuns;
    MissingForm(net, n, p, s);
    founder := ClosingStarts(net, n, p, s);
    CheckedForm(net, p, {n});
    x := ClosingStabilizes(Checked(net, p, {n}), n, p, s, founder);
    PlainTurn(net, p, {n});
    founder := LoserTurns(net, n, p, s, []);
  }

  /** While p closes the gap it sends nothing. */
  lemma ClosingSettles(w: World, cat: Catalogue, n: Key, p: Key, s: Key, x: Key, stale: Key)
    requires Closing(w.net, n, p, s, x) && Inherited(w, cat, n, s)
    ensures p in w.stores && CanSettle(w, p, stale, {n})
    ensures forall m, e :: m in w.stores ==> (e in Settled(w, p, stale).stores[m] <==> e in w.stores[m])
  {
    hide IsNext, IsOwner, Settled, CanSettle, Inherited;
    InheritedForm(w, cat, n, s);
    assert ClosingAt(w.net, n, p, s, x, p);
    QuietSettling(w, cat, n, s, p, w.net[p].prev.value, stale);
  }

  lemma ClosingWorldTurn(w: World, w1: World, cat: Catalogue, n: Key, p: Key, s: Key, x: Key)
    requires Inherited(w, cat, n, s) && TurnRunsOnRing(w, w1, n, p) && Closing(w1.net, n, p, s, x)
    ensures TurnRuns(w, Turn(p, [], n), {n}) && Turned(w, Turn(p, [], n), {n}).net == w1.net
    ensures Inherited(Turned(w, Turn(p, [], n), {n}), cat, n, s)
  {
    hide Closing, RingTurn, RingTurnRuns, IsOwner, Settled, CanSettle, Inherited;
    InheritedForm(w, cat, n, s);
    SpreadOnly(w, w1, cat);
    InheritedForm2(w, w1, cat, n, s);
    ClosingSettles(w1, cat, n, p, s, x, n);
    TurnConserves(w, cat, Turn(p, [], n), {n});
    InheritedStays(w1, Turned(w, Turn(p, [], n), {n}), cat, n, s);
  }

  ghost predicate TurnRunsOnRing(w: World, w1: World, n: Key, p: Key) {
    && Ring.WellFormed(w.net) && RingTurnRuns(w.net, p, [], {n}) && p in w.stores
    && w1 == World(RingTurn(w.net, p, [], {n}), w.stores)
  }

  lemma {:induction false} ClosingTurns(w: World, cat: Catalogue, n: Key, p: Key, s: Key, x: Key, founder: Key)
    returns (turns: seq<Turn>)
    requires Closing(w.net, n, p, s, x) && LiveInv(w.net, {n}, founder) && Inherited(w, cat, n, s)
    ensures TurnsRun(w, turns, {n}) && LiveIdeal(AllTurned(w, turns, {n}).net, {n})
    ensures Inherited(AllTurned(w, turns, {n}), cat, n, s)
    decreases Dist(p, x)
  {
    hide Closing, Inv, View, Led, Ideal, RingTurn, RingTurnRuns, Inherited, TurnRuns, Turned;
    ClosingForm(w.net, n, p, s, x);
    if x == s {
      Closed(w.net, n, p, s);
      turns := [];
    } else {
      InheritedForm(w, cat, n, s);
      var x' := ClosingTurn(w.net, n, p, s, x, founder);
      var t := Turn(p, [], n);
      ClosingWorldTurn(w, World(RingTurn(w.net, p, [], {n}), w.stores), cat, n, p, s, x');
      var w' := Turned(w, t, {n});
      var rest;
      if x' == s {
        ClosingIs(w'.net, n, p, s, x');
        Closed(w'.net, n, p, s);
        rest := [];
      } else {
        rest := ClosingTurns(w', cat, n, p, s, x', founder);
      }
      turns := [t] + rest;
      assert turns[1..] == rest;
    }
  }

  lemma ClosingIs(net: Net, n: Key, p: Key, s: Key, x: Key)
    requires Closing(net, n, p, s, x) && x == s
    ensures Closing(net, n, p, s, s)
  {
  }

  /** Whatever the fingers of its predecessor name, some turns of that predecessor alone make the
      ring of those left ideal, without sending a file. */
  lemma GapCloses(w: World, cat: Catalogue, n: Key) returns (turns: seq<Turn>)
    requires Refines(w, cat) && n in w.net && Succ(w.net, n) != n && Third(w.net, n)
    ensures TurnsRun(Departed(w, n), turns, {n})
    ensures LiveIdeal(AllTurned(Departed(w, n), turns, {n}).net, {n})
    ensures Inherited(AllTurned(Departed(w, n), turns, {n}), cat, n, Succ(w.net, n))
  {
    hide Missing, Closing, Inv, View, Led, Ideal, RingTurn, RingTurnRuns, Inherited, TurnRuns, Turned, Departed;
    var p, s := MissingFrom(w.net, n);
    MissingForm(w.net, n, p, s);
    DepartedInherited(w, cat, n);
    var w0 := Departed(w, n);
    InheritedForm(w0, cat, n, s);
    var x, founder := FirstClosingTurn(w0.net, n, p, s);
    var t := Turn(p, [], n);
    ClosingWorldTurn(w0, World(RingTurn(w0.net, p, [], {n}), w0.stores), cat, n, p, s, x);
    var rest := ClosingTurns(Turned(w0, t, {n}), cat, n, p, s, x, founder);
    turns := [t] + rest;
    assert turns[1..] == rest;
  }
}

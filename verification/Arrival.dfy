/** The time between a join and the first turn of the newcomer's predecessor: when a redistribution
    in it makes a tracker wait for itself. */
module Arrival {
  import opened Circle
  import opened Ring
  import opened RingInvariant
  import opened RingConvergence
  import opened RingLookup
  import opened RingTurns
  import opened RingRepair
  import opened SortedSeq
  import opened TorrentFile
  import opened Ownership
  import opened Placement
  import opened Upkeep

  // ---------------------------------------------------------------- the ring

  ghost predicate HalfJoinedAt(net: Net, members: set<Key>, s: Key, k: Key)
    requires Ring.WellFormed(net) && k in net
  {
    && IsNext(members, k, Succ(net, k))
    && (k != s ==> net[k].prev.Some? && net[k].prev.value in members && IsNext(members, net[k].prev.value, k))
  }

  /** n has joined an ideal ring between p and s; s knows, n and p do not yet. Fingers may name
      anybody. */
  ghost predicate HalfJoined(net: Net, n: Key, p: Key, s: Key) {
    && Ring.WellFormed(net) && n in net && p in net && s in net && n != p && n != s
    && IsNext(net.Keys - {n}, p, s) && Inside(n, p, s)
    && Succ(net, n) == s && net[n].prev == None && net[s].prev == Some(n)
    && forall k {:trigger HalfJoinedAt(net, net.Keys - {n}, s, k)} ::
         k in net && k != n ==> HalfJoinedAt(net, net.Keys - {n}, s, k)
  }

  lemma HalfJoinedFrom(net: Net, n: Key, contact: Key) returns (p: Key, s: Key)
    requires Ideal(net) && contact in net && n !in net
    ensures s == FindNext(net, contact, n) && net[s].prev == Some(p)
    ensures HalfJoined(Joined(net, n, contact), n, p, s)
    ensures Inv(Joined(net, n, contact), contact)
  {
    hide LookupPrev, IsNext;
    s := FindNext(net, contact, n);
    FindNextIsOwner(net, contact, n);
    assert IdealAt(net, s) && WellFormedAt(net, s);
    p := net[s].prev.value;
    OwnerByArc(net.Keys, p, s, n);
    IdealIsInv(net, contact);
    StepInv(net, Join(n, contact), contact);
    JoinedAs(net, n, s, p, Joined(net, n, contact));
    JoinedIsHalf(net, n, s, p, Joined(net, n, contact));
  }

  lemma JoinedIsHalf(net: Net, n: Key, s: Key, p: Key, joined: Net)
    requires Ideal(net) && s in net && p in net && n !in net && Inside(n, p, s) && net[s].prev == Some(p)
    requires Ring.WellFormed(joined) && joined.Keys == net.Keys + {n}
    requires Succ(joined, n) == s && joined[n].prev == None && joined[s].prev == Some(n)
    requires forall k :: k in net ==> Succ(joined, k) == Succ(net, k) && (k != s ==> joined[k].prev == net[k].prev)
    ensures HalfJoined(joined, n, p, s)
  {
    hide Inside;
    assert joined.Keys - {n} == net.Keys;
    assert IdealAt(net, s);
    forall k | k in joined && k != n ensures HalfJoinedAt(joined, joined.Keys - {n}, s, k) {
      assert IdealAt(net, k) && WellFormedAt(net, k);
    }
  }

  lemma JoinedAs(net: Net, n: Key, s: Key, p: Key, joined: Net)
    requires Ring.WellFormed(net) && n !in net && s in net && p in net && p != n && net[s].prev == Some(p)
    requires InsideOrEnd(n, p, s) && joined == JoinedBehind(net, n, s) && Ring.WellFormed(joined)
    ensures Inside(n, p, s)
    ensures joined.Keys == net.Keys + {n} && joined.Keys - {n} == net.Keys
    ensures Succ(joined, n) == s && joined[n].prev == None && joined[s].prev == Some(n)
    ensures forall k :: k in net ==> Succ(joined, k) == Succ(net, k) && (k != s ==> joined[k].prev == net[k].prev)
  {
    assert Inside(n, p, s);
  }

  lemma HalfJoinedForm(net: Net, n: Key, p: Key, s: Key)
    requires HalfJoined(net, n, p, s)
    ensures Ring.WellFormed(net) && n in net && p in net && s in net && n != p && n != s
  {
  }

  lemma HalfJoinedShape(net: Net, net': Net, n: Key, p: Key, s: Key)
    requires HalfJoined(net, n, p, s) && SameShape(net, net')
    ensures HalfJoined(net', n, p, s)
  {
    hide IsNext, Inside;
    forall k | k in net' && k != n ensures HalfJoinedAt(net', net'.Keys - {n}, s, k) {
      assert HalfJoinedAt(net, net.Keys - {n}, s, k);
      assert Succ(net', k) == Succ(net, k) && net'[k].prev == net[k].prev;
    }
    assert Succ(net', n) == Succ(net, n) && net'[n].prev == net[n].prev && net'[s].prev == net[s].prev;
  }

  /** Nobody but p has anything to stabilize. */
  lemma OthersRest(net: Net, n: Key, p: Key, s: Key, k: Key)
    requires HalfJoined(net, n, p, s) && k in net && k != p
    ensures Stabilized(net, k) == net
  {
    var members := net.Keys - {n};
    EffectAt(net, k);
    if k != n {
      assert HalfJoinedAt(net, members, s, k);
      var t := Succ(net, k);
      assert HalfJoinedAt(net, members, s, t);
      if t == s {
        PrevIsUnique(members, s, k, p);
      } else {
        PrevIsUnique(members, t, k, net[t].prev.value);
      }
    }
  }

  /** And when p stabilizes the ring is ideal. */
  lemma PredecessorCloses(net: Net, n: Key, p: Key, s: Key)
    requires HalfJoined(net, n, p, s)
    ensures Ideal(Stabilized(net, p)) && Stabilized(net, p).Keys == net.Keys
  {
    var members := net.Keys - {n};
    assert HalfJoinedAt(net, members, s, p);
    NextIsUnique(members, p, s, Succ(net, p));
    SetSuccEffect(net, p, n);
    NotifiedEffect(SetSucc(net, p, n), n, p);
    var net' := Stabilized(net, p);
    forall k | k in net' ensures IdealAt(net', k) {
      if k != n {
        assert HalfJoinedAt(net, members, s, k);
      }
      NewNext(net.Keys, n, p, s, k, Succ(net', k));
      NewNext(net.Keys, n, p, s, net'[k].prev.value, k);
    }
  }

  /** Who is next to whom once n is in. */
  lemma NewNext(members: set<Key>, n: Key, p: Key, s: Key, k: Key, t: Key)
    requires n in members && p in members && s in members && n != p && n != s && k in members && t in members
    requires IsNext(members - {n}, p, s) && Inside(n, p, s)
    requires if k == n then t == s else if k == p then t == n else IsNext(members - {n}, k, t)
    ensures IsNext(members, k, t)
  {
    forall m | m in members ensures !Inside(m, k, t) {
      if k == n || k == p {
        assert m != n ==> !Inside(m, p, s);
      } else if m == n {
        assert p in members - {n} && k in members - {n};
        OutsideBoth(k, t, n, p, s);
      }
    }
  }

  lemma OutsideBoth(k: Key, t: Key, n: Key, p: Key, s: Key)
    requires !Inside(p, k, t) && !Inside(k, p, s) && Inside(n, p, s) && k != p && k != n
    ensures !Inside(n, k, t)
  {
  }

  /** A turn on the ring: everyone's runs, those of the others change nothing but fingers. */
  lemma HalfTurn(net: Net, n: Key, p: Key, s: Key, founder: Key, k: Key, repairs: seq<Repair>)
    requires HalfJoined(net, n, p, s) && Inv(net, founder) && k in net && Indexed(repairs)
    ensures RingTurnRuns(net, k, repairs, {}) && Inv(RingTurn(net, k, repairs, {}), founder)
    ensures k != p ==> HalfJoined(RingTurn(net, k, repairs, {}), n, p, s)
    ensures k == p ==> Ideal(RingTurn(net, k, repairs, {}))
  {
    hide HalfJoined, Inv, Ideal, RingTurnRuns, RingTurn, View, NoTraces, Stabilized, Indexed;
    HalfJoinedForm(net, n, p, s);
    ViewOfAll(net);
    NobodyTraced(net);
    TracelessRuns(net, {}, founder, k, repairs);
    TurnSeen(net, k, repairs, {}, founder);
    var after := RingTurn(net, k, repairs, {});
    ViewOfAll(after);
    if k == p {
      PredecessorCloses(net, n, p, s);
      IdealShape(Stabilized(net, p), after);
    } else {
      OthersRest(net, n, p, s, k);
      HalfJoinedShape(net, after, n, p, s);
    }
  }

  /** Whoever looks for an id between p and n is led to s. */
  lemma LedToSuccessor(net: Net, n: Key, p: Key, s: Key, x: Key, id: Key)
    requires HalfJoined(net, n, p, s) && x in net && x != id && Inside(id, p, n)
    ensures FindNext(net, x, id) == s
  {
    var c := LookupPrev(net, x, id);
    if c == n {
      NotBehind(id, p, n, s);
    } else {
      var members := net.Keys - {n};
      assert HalfJoinedAt(net, members, s, c) && HalfJoinedAt(net, members, s, p);
      if c != p {
        assert !Inside(p, c, Succ(net, c)) && !Inside(c, p, s);
        OnlyArc(id, c, Succ(net, c), p, n, s);
      }
      NextIsUnique(members, p, s, Succ(net, p));
    }
  }

  lemma NotBehind(id: Key, p: Key, n: Key, s: Key)
    requires Inside(id, p, n) && Inside(n, p, s)
    ensures !InsideOrEnd(id, n, s) && id != n
  {
  }

  lemma OnlyArc(id: Key, c: Key, t: Key, p: Key, n: Key, s: Key)
    requires Inside(id, p, n) && Inside(n, p, s) && !Inside(p, c, t) && !Inside(c, p, s) && c != p
    ensures !InsideOrEnd(id, c, t)
  {
  }

  // ---------------------------------------------------------------- the files

  /** `home` is what the newcomer was given: each of these files is at n or at s, s has nothing else
      from before n, and the others have what they own. */
  ghost predicate Handed(w: World, cat: Catalogue, n: Key, p: Key, s: Key, home: Store) {
    && Spread(w, cat) && n in w.net && s in w.net
    && (forall e :: e in w.stores[n] ==> e in home)
    && (forall e :: e in home ==> Inside(e.id, p, n) && (e in w.stores[n] || e in w.stores[s]))
    && (forall e :: e in w.stores[s] ==> InsideOrEnd(e.id, n, s) || e in home)
    && (forall k, e :: k in w.stores && k != n && k != s && e in w.stores[k] ==> IsOwner(w.net.Keys - {n}, e.id, k))
  }

  /** Some of the files have come back to s. */
  ghost predicate Back(w: World, s: Key, home: Store)
    requires s in w.stores
  {
    exists e :: e in home && e in w.stores[s]
  }

  ghost predicate Foreign(home: Store, stale: Key, n: Key) {
    exists e :: e in home && !InsideOrEnd(e.id, stale, n)
  }

  /** Turned stores that hold the same files. */
  lemma HandedStays(w: World, w': World, cat: Catalogue, n: Key, p: Key, s: Key, home: Store)
    requires Handed(w, cat, n, p, s, home) && Spread(w', cat) && w'.net.Keys == w.net.Keys
    requires forall m, e :: m in w.stores ==> (e in w'.stores[m] <==> e in w.stores[m])
    ensures Handed(w', cat, n, p, s, home) && (Back(w', s, home) <==> Back(w, s, home))
  {
    hide Agrees, AllSaved, StoredIn, Inside, InsideOrEnd, IsOwner;
  }

  /** The turn of a bystander sends nothing. */
  lemma BystanderTurn(w: World, cat: Catalogue, n: Key, p: Key, s: Key, home: Store, founder: Key, t: Turn)
    requires HalfJoined(w.net, n, p, s) && Inv(w.net, founder) && Handed(w, cat, n, p, s, home)
    requires Sound(w.net, {}, t) && t.who != p && t.who != n && t.who != s
    ensures TurnRuns(w, t, {}) && Handed(Turned(w, t, {}), cat, n, p, s, home)
    ensures Back(Turned(w, t, {}), s, home) <==> Back(w, s, home)
  {
    hide Inv, RingTurnRuns, RingTurn, IsOwner, IsNext, Inside, InsideOrEnd, Sweep, CanSettle;
    var k := t.who;
    HalfTurn(w.net, n, p, s, founder, k, t.repairs);
    var w1 := World(RingTurn(w.net, k, t.repairs, {}), w.stores);
    SpreadOnly(w, w1, cat);
    assert HalfJoinedAt(w1.net, w1.net.Keys - {n}, s, k);
    forall e | e in w1.stores[k] ensures InsideOrEnd(e.id, LowEnd(w1.net, k, t.stale), k) {
      OwnerByArc(w1.net.Keys - {n}, w1.net[k].prev.value, k, e.id);
    }
    NothingSent(w1, cat, k, t.stale, {});
    TurnConserves(w, cat, t, {});
    HandedStays(w, Turned(w, t, {}), cat, n, p, s, home);
  }

  /** The turn of the newcomer sends back what is outside the arc that it takes for its own. */
  lemma NewcomerTurn(w: World, cat: Catalogue, n: Key, p: Key, s: Key, home: Store, founder: Key, t: Turn)
    requires HalfJoined(w.net, n, p, s) && Inv(w.net, founder) && Handed(w, cat, n, p, s, home)
    requires Sound(w.net, {}, t) && t.who == n
    ensures TurnRuns(w, t, {}) && Handed(Turned(w, t, {}), cat, n, p, s, home)
    ensures Back(Turned(w, t, {}), s, home) <==> Back(w, s, home) || Foreign(home, t.stale, n)
  {
    hide Inv, RingTurnRuns, RingTurn, IsOwner, IsNext, Inside, InsideOrEnd, Sweep, FindNext, Straight;
    HalfTurn(w.net, n, p, s, founder, n, t.repairs);
    var w1 := World(RingTurn(w.net, n, t.repairs, {}), w.stores);
    NewcomerSends(w1, cat, n, p, s, home, t.stale);
    TurnConserves(w, cat, t, {});
    NewcomerSent(w1, cat, n, p, s, home, t.stale, Turned(w, t, {}));
  }

  lemma NewcomerSends(w: World, cat: Catalogue, n: Key, p: Key, s: Key, home: Store, stale: Key)
    requires HalfJoined(w.net, n, p, s) && w.stores.Keys == w.net.Keys
    requires forall e :: e in w.stores[n] ==> Inside(e.id, p, n)
    ensures CanSettle(w, n, stale, {})
    ensures forall e :: e in w.stores[n] ==>
      Dest(ToOwners(w.net, n, stale), e.id) == if InsideOrEnd(e.id, stale, n) then None else Some(s)
  {
    hide FindNext, Straight, HalfJoined;
    HalfJoinedForm(w.net, n, p, s);
    assert LowEnd(w.net, n, stale) == stale by {
      UnknownBefore(w.net, n, p, s);
    }
    NobodyTraced(w.net);
    forall e | e in w.stores[n]
      ensures CanSend(w.net, n, LowEnd(w.net, n, stale), e.id, {})
      ensures Dest(ToOwners(w.net, n, stale), e.id) == if InsideOrEnd(e.id, stale, n) then None else Some(s)
    {
      UnknownBefore(w.net, n, p, s);
      NotBehind(e.id, p, n, s);
      ViewOfAll(w.net);
      TracelessStraight(w.net, n, e.id, {});
      LedToSuccessor(w.net, n, p, s, n, e.id);
    }
  }

  lemma UnknownBefore(net: Net, n: Key, p: Key, s: Key)
    requires HalfJoined(net, n, p, s)
    ensures net[n].prev == None && net[s].prev == Some(n) && Inside(n, p, s)
  {
  }

  lemma NewcomerSent(w: World, cat: Catalogue, n: Key, p: Key, s: Key, home: Store, stale: Key, w': World)
    requires HalfJoined(w.net, n, p, s) && Handed(w, cat, n, p, s, home) && Spread(w', cat)
    requires CanSettle(w, n, stale, {}) && w' == Settled(w, n, stale)
    requires forall e :: e in w.stores[n] ==>
      Dest(ToOwners(w.net, n, stale), e.id) == if InsideOrEnd(e.id, stale, n) then None else Some(s)
    ensures Handed(w', cat, n, p, s, home)
    ensures Back(w', s, home) <==> Back(w, s, home) || Foreign(home, stale, n)
  {
    hide IsOwner, IsNext, Inside, InsideOrEnd, Sweep, Dest, CanSettle, Agrees, AllSaved;
    HalfJoinedForm(w.net, n, p, s);
    SettledFrame(w, n, stale);
    SettleSends(w, n, stale, {});
    var rule := ToOwners(w.net, n, stale);
    assert LowEnd(w.net, n, stale) == stale;
    forall m, e | m in w.stores
      ensures e in w'.stores[m] <==>
        if m == n then e in w.stores[n] && InsideOrEnd(e.id, stale, n)
        else e in w.stores[m] || (m == s && e in w.stores[n] && !InsideOrEnd(e.id, stale, n))
    {
      SweepAt(w, n, rule, cat, m);
    }
  }

  /** The turn of s, when it is not p itself, waits for itself exactly when a file has come back. */
  lemma SuccessorTurn(w: World, cat: Catalogue, n: Key, p: Key, s: Key, home: Store, founder: Key, t: Turn)
    requires HalfJoined(w.net, n, p, s) && Inv(w.net, founder) && Handed(w, cat, n, p, s, home)
    requires Sound(w.net, {}, t) && t.who == s && s != p
    ensures TurnRuns(w, t, {}) <==> !Back(w, s, home)
    ensures TurnRuns(w, t, {}) ==>
      Handed(Turned(w, t, {}), cat, n, p, s, home) && !Back(Turned(w, t, {}), s, home)
  {
    hide Inv, RingTurnRuns, RingTurn, IsOwner, IsNext, Inside, InsideOrEnd, Sweep, CanSettle, HalfJoined, Spread;
    HalfJoinedForm(w.net, n, p, s);
    HandedKeys(w, cat, n, p, s, home);
    HalfTurn(w.net, n, p, s, founder, s, t.repairs);
    var w1 := World(RingTurn(w.net, s, t.repairs, {}), w.stores);
    SpreadOnly(w, w1, cat);
    HalfJoinedForm(w1.net, n, p, s);
    UnknownBefore(w1.net, n, p, s);
    if Back(w, s, home) {
      BackBlocks(w1, n, p, s, home, t.stale);
    } else {
      NothingSent(w1, cat, s, t.stale, {});
      HandedStays(w, Turned(w, t, {}), cat, n, p, s, home) by {
        HandedSpread(w, cat, n, p, s, home, t);
      }
    }
  }

  lemma HandedSpread(w: World, cat: Catalogue, n: Key, p: Key, s: Key, home: Store, t: Turn)
    requires Handed(w, cat, n, p, s, home) && TurnRuns(w, t, {})
    ensures Spread(Turned(w, t, {}), cat)
  {
    TurnConserves(w, cat, t, {});
  }

  lemma BackBlocks(w: World, n: Key, p: Key, s: Key, home: Store, stale: Key)
    requires HalfJoined(w.net, n, p, s) && s in w.stores && Back(w, s, home)
    requires forall e :: e in home ==> Inside(e.id, p, n)
    ensures !CanSettle(w, s, stale, {})
  {
    hide FindNext, Straight;
    var e :| e in home && e in w.stores[s];
    NotBehind(e.id, p, n, s);
    UnknownBefore(w.net, n, p, s);
    if e.id == s {
      NotTheEnd(e.id, p, n, s);
    }
    LedToSuccessor(w.net, n, p, s, s, e.id);
    assert !CanSend(w.net, s, LowEnd(w.net, s, stale), e.id, {});
  }

  lemma NotTheEnd(id: Key, p: Key, n: Key, s: Key)
    requires Inside(id, p, n) && Inside(n, p, s)
    ensures id != s
  {
  }

  /** The turn of p runs, and the ring is ideal from then on. */
  lemma PredecessorTurn(w: World, n: Key, p: Key, s: Key, founder: Key, t: Turn)
    requires HalfJoined(w.net, n, p, s) && Inv(w.net, founder) && w.stores.Keys == w.net.Keys
    requires Sound(w.net, {}, t) && t.who == p
    ensures TurnRuns(w, t, {}) && Ideal(Turned(w, t, {}).net)
  {
    hide Inv, RingTurnRuns, RingTurn, HalfJoined, Ideal, CanSettle, LiveIdeal, NoTraces;
    HalfJoinedForm(w.net, n, p, s);
    HalfTurn(w.net, n, p, s, founder, p, t.repairs);
    var w1 := World(RingTurn(w.net, p, t.repairs, {}), w.stores);
    IdealIsLive(w1.net);
    IdealSettles(w1, p, t.stale, {});
  }

  // ---------------------------------------------------------------- the exact condition

  /** Going through the turns: `back` tells whether a file has come back to s so far. */
  ghost predicate WillBlock(n: Key, p: Key, s: Key, home: Store, back: bool, turns: seq<Turn>)
    decreases |turns|
  {
    turns != [] && turns[0].who != p &&
      ((turns[0].who == s && back)
       || WillBlock(n, p, s, home, back || (turns[0].who == n && Foreign(home, turns[0].stale, n)), turns[1..]))
  }

  lemma {:induction false} RunsUnlessBlocked(w: World, cat: Catalogue, n: Key, p: Key, s: Key, home: Store,
                                             founder: Key, turns: seq<Turn>)
    requires HalfJoined(w.net, n, p, s) && Inv(w.net, founder) && Handed(w, cat, n, p, s, home)
    requires forall i :: 0 <= i < |turns| ==> Sound(w.net, {}, turns[i])
    ensures TurnsRun(w, turns, {}) <==> !WillBlock(n, p, s, home, Back(w, s, home), turns)
    decreases |turns|
  {
    hide HalfJoined, Inv, Ideal, Spread, TurnRuns, Turned, Back, Foreign, Inside, InsideOrEnd, IsOwner;
    if turns == [] {
    } else {
      var t := turns[0];
      HalfJoinedForm(w.net, n, p, s);
      HandedKeys(w, cat, n, p, s, home);
      if t.who == p {
        PredecessorTurn(w, n, p, s, founder, t);
        IdealIsLive(Turned(w, t, {}).net);
        IdealTurnsRun(Turned(w, t, {}), turns[1..], {});
      } else {
        if t.who == n {
          NewcomerTurn(w, cat, n, p, s, home, founder, t);
        } else if t.who == s {
          SuccessorTurn(w, cat, n, p, s, home, founder, t);
        } else {
          BystanderTurn(w, cat, n, p, s, home, founder, t);
        }
        if TurnRuns(w, t, {}) {
          HalfGoesOn(w, n, p, s, founder, t);
          RunsUnlessBlocked(Turned(w, t, {}), cat, n, p, s, home, founder, turns[1..]);
        }
      }
    }
  }

  lemma HandedKeys(w: World, cat: Catalogue, n: Key, p: Key, s: Key, home: Store)
    requires Handed(w, cat, n, p, s, home)
    ensures w.stores.Keys == w.net.Keys
  {
  }

  lemma HalfGoesOn(w: World, n: Key, p: Key, s: Key, founder: Key, t: Turn)
    requires HalfJoined(w.net, n, p, s) && Inv(w.net, founder) && Sound(w.net, {}, t) && t.who != p
    requires TurnRuns(w, t, {})
    ensures HalfJoined(Turned(w, t, {}).net, n, p, s) && Inv(Turned(w, t, {}).net, founder)
  {
    HalfTurn(w.net, n, p, s, founder, t.who, t.repairs);
  }

  /** The turn at j is one of s, and p has had none so far. */
  ghost predicate ReachesSuccessor(p: Key, s: Key, turns: seq<Turn>, j: nat)
    requires j < |turns|
  {
    turns[j].who == s && forall k :: 0 <= k <= j ==> turns[k].who != p
  }

  /** The turn at i is one of n, and sends a file back. */
  ghost predicate SendsBack(n: Key, home: Store, turns: seq<Turn>, i: nat)
    requires i < |turns|
  {
    turns[i].who == n && Foreign(home, turns[i].stale, n)
  }

  ghost predicate SentBackTooSoon(n: Key, p: Key, s: Key, home: Store, turns: seq<Turn>) {
    exists i, j :: 0 <= i < j < |turns| && SendsBack(n, home, turns, i) && ReachesSuccessor(p, s, turns, j)
  }

  lemma OneTurnLater(p: Key, s: Key, turns: seq<Turn>, j: nat)
    requires 0 < j < |turns|
    ensures ReachesSuccessor(p, s, turns, j) <==> turns[0].who != p && ReachesSuccessor(p, s, turns[1..], j - 1)
  {
    var rest := turns[1..];
    assert forall k :: 0 <= k < |rest| ==> rest[k] == turns[k + 1];
    if ReachesSuccessor(p, s, rest, j - 1) && turns[0].who != p {
      forall k | 0 <= k <= j ensures turns[k].who != p {
        assert k > 0 ==> turns[k] == rest[k - 1];
      }
    }
  }

  lemma {:induction false} WillBlockIff(n: Key, p: Key, s: Key, home: Store, back: bool, turns: seq<Turn>)
    ensures WillBlock(n, p, s, home, back, turns) <==>
      || (back && exists j :: 0 <= j < |turns| && ReachesSuccessor(p, s, turns, j))
      || SentBackTooSoon(n, p, s, home, turns)
    decreases |turns|
  {
    hide Foreign, ReachesSuccessor;
    if turns == [] {
    } else {
      var rest, back' := turns[1..], back || SendsBack(n, home, turns, 0);
      WillBlockIff(n, p, s, home, back', rest);
      FirstTurn(p, s, turns);
      forall j | 0 < j < |turns|
        ensures ReachesSuccessor(p, s, turns, j) <==> turns[0].who != p && ReachesSuccessor(p, s, rest, j - 1)
        ensures SendsBack(n, home, turns, j) <==> SendsBack(n, home, rest, j - 1)
      {
        OneTurnLater(p, s, turns, j);
      }
      if WillBlock(n, p, s, home, back', rest) && turns[0].who != p {
        if j :| 0 <= j < |rest| && ReachesSuccessor(p, s, rest, j) && back' {
          assert ReachesSuccessor(p, s, turns, j + 1);
        } else {
          var i, j :| 0 <= i < j < |rest| && SendsBack(n, home, rest, i) && ReachesSuccessor(p, s, rest, j);
          assert SendsBack(n, home, turns, i + 1) && ReachesSuccessor(p, s, turns, j + 1);
        }
      }
      if i, j :| 0 <= i < j < |turns| && SendsBack(n, home, turns, i) && ReachesSuccessor(p, s, turns, j) {
        assert ReachesSuccessor(p, s, rest, j - 1);
        assert i > 0 ==> SendsBack(n, home, rest, i - 1);
      }
      if j :| 0 <= j < |turns| && ReachesSuccessor(p, s, turns, j) && back {
        assert j > 0 ==> ReachesSuccessor(p, s, rest, j - 1);
      }
    }
  }

  lemma FirstTurn(p: Key, s: Key, turns: seq<Turn>)
    requires turns != []
    ensures ReachesSuccessor(p, s, turns, 0) <==> turns[0].who == s && turns[0].who != p
  {
  }

  // ---------------------------------------------------------------- after a join

  /** Right after MOVE_DATA the newcomer has what it was given, and nothing has come back. */
  lemma ArrivedHanded(w: World, cat: Catalogue, n: Key, contact: Key) returns (p: Key, s: Key)
    requires Refines(w, cat) && contact in w.net && n !in w.net && n !in cat
    ensures var joined := Joined(w.net, n, contact);
      && s == FindNext(w.net, contact, n) && w.net[s].prev == Some(p)
      && HalfJoined(joined, n, p, s) && Inv(joined, contact)
      && var w1 := Arrived(w, n, s, joined);
      && w1.net == joined && n in w1.stores && s in w1.stores
      && Handed(w1, cat, n, p, s, w1.stores[n]) && !Back(w1, s, w1.stores[n])
  {
    hide HalfJoined, Inv, Keeps, Spread, Sweep, Select, Loaded, Inside, InsideOrEnd, IsOwner;
    p, s := HalfJoinedFrom(w.net, n, contact);
    var joined := Joined(w.net, n, contact);
    FindNextIsOwner(w.net, contact, n);
    JoinedKeys(w.net, n, contact);
    RefinesIsSpread(w, cat, contact);
    ArrivedStores(w, n, s, joined);
    ArrivedSpread(w, cat, n, s, joined);
    var w1 := Arrived(w, n, s, joined);
    assert joined.Keys - {n} == w.net.Keys;
    UnknownBefore(joined, n, p, s);
    forall k, e | k in w1.stores && e in w1.stores[k]
      ensures if k == n then Inside(e.id, p, n)
              else if k == s then InsideOrEnd(e.id, n, s) && !Inside(e.id, p, n)
              else IsOwner(w.net.Keys, e.id, k)
    {
      ArrivedAtOwner(w, cat, n, p, s, joined, k, e);
    }
  }

  lemma JoinedKeys(net: Net, n: Key, contact: Key)
    requires Ring.WellFormed(net) && contact in net && n !in net
    ensures Joined(net, n, contact).Keys == net.Keys + {n}
  {
  }

  lemma ArrivedSpread(w: World, cat: Catalogue, n: Key, s: Key, joined: Net)
    requires Spread(w, cat) && n !in w.net && s in w.net && joined.Keys == w.net.Keys + {n}
    ensures Spread(Arrived(w, n, s, joined), cat)
  {
    hide Select, Loaded, Ascending, AllSaved;
    SpreadEntered(w, cat, n, joined);
    BlockedByFile(Entered(w, n, joined), s, ToNewcomer(s, n));
    SweepConserves(Entered(w, n, joined), s, ToNewcomer(s, n), cat);
  }

  lemma ArrivedAtOwner(w: World, cat: Catalogue, n: Key, p: Key, s: Key, joined: Net, k: Key, e: Entry<File>)
    requires Refines(w, cat) && n !in w.net && n !in cat && IsOwner(w.net.Keys, n, s) && w.net[s].prev == Some(p)
    requires joined.Keys == w.net.Keys + {n} && k in Arrived(w, n, s, joined).stores && k in joined
    requires e in Arrived(w, n, s, joined).stores[k] && Inside(n, p, s)
    ensures if k == n then Inside(e.id, p, n)
            else if k == s then InsideOrEnd(e.id, n, s) && !Inside(e.id, p, n)
            else IsOwner(w.net.Keys, e.id, k)
  {
    hide Sweep, Select, Loaded, Arrived;
    MoveDataAt(w, cat, n, s, joined, k);
    assert Keeps(joined.Keys, cat, k, Arrived(w, n, s, joined).stores[k]);
    OwnerAfterJoin(w.net.Keys, n, s, e.id, k);
    assert IdealAt(w.net, s) && Ring.WellFormedAt(w.net, s);
    OwnerByArc(w.net.Keys, p, s, e.id);
    if k == n {
      NewArc(e.id, p, n, s);
    } else if k == s {
      OldArc(e.id, p, n, s);
    }
  }

  lemma NewArc(id: Key, p: Key, n: Key, s: Key)
    requires InsideOrEnd(id, p, s) && InsideOrEnd(id, s, n) && Inside(n, p, s) && id != n
    ensures Inside(id, p, n)
  {
  }

  lemma OldArc(id: Key, p: Key, n: Key, s: Key)
    requires InsideOrEnd(id, p, s) && !InsideOrEnd(id, s, n) && Inside(n, p, s)
    ensures InsideOrEnd(id, n, s) && !Inside(id, p, n)
  {
  }

  /** After a join into an ideal ring, turns in any order, with any repairs and whatever the
      predecessor fields still contain, run to their end exactly unless before the first turn of its
      predecessor p the newcomer has one in which it takes a file it was given for foreign, and
      then its successor s has one. */
  lemma JoinBlocksIff(w: World, cat: Catalogue, n: Key, contact: Key, turns: seq<Turn>)
    requires Refines(w, cat) && contact in w.net && n !in w.net && n !in cat
    requires forall i :: 0 <= i < |turns| ==> Sound(Joined(w.net, n, contact), {}, turns[i])
    ensures var s := FindNext(w.net, contact, n);
      var w1 := Arrived(w, n, s, Joined(w.net, n, contact));
      && w.net[s].prev.Some? && n in w1.stores
      && (!TurnsRun(w1, turns, {}) <==> SentBackTooSoon(n, w.net[s].prev.value, s, w1.stores[n], turns))
  {
    hide HalfJoined, Inv, Handed, Back, Sound, TurnsRun, Arrived, SendsBack, ReachesSuccessor;
    var p, s := ArrivedHanded(w, cat, n, contact);
    var w1 := Arrived(w, n, s, Joined(w.net, n, contact));
    RunsUnlessBlocked(w1, cat, n, p, s, w1.stores[n], contact, turns);
    WillBlockIff(n, p, s, w1.stores[n], false, turns);
  }
}

/** The whole periodic turn of a tracker: its part of the ring, and then the files that are outside
    its own arc go to the trackers that the ring names. */
module Upkeep {
  import opened Circle
  import opened Ring
  import opened RingInvariant
  import opened RingConvergence
  import opened RingLookup
  import opened RingTurns
  import opened RingRepair
  import opened SortedSeq
  import opened TorrentFile
  import opened Ownership
  import opened Placement

  // ---------------------------------------------------------------- one turn

  /** The start of the arc a tracker takes for its own: its predecessor, or whatever the field
      still contains when none is known. */
  ghost function LowEnd(net: Net, n: Key, stale: Key): Key
    requires n in net
  {
    if net[n].prev.Some? then net[n].prev.value else stale
  }

  /** The file can be sent where the ring says: the lookup is answered, and so is the receiver,
      who is not the sender. */
  ghost predicate CanSend(net: Net, from: Key, lo: Key, id: Key, gone: set<Key>)
    requires Ring.WellFormed(net) && from in net
  {
    InsideOrEnd(id, lo, from) ||
      (Answered(net, from, id, gone) && FindNext(net, from, id) !in gone && FindNext(net, from, id) != from)
  }

  /** The redistribution at the end of a turn, on the ring that the turn has made. */
  ghost predicate CanSettle(w: World, n: Key, stale: Key, gone: set<Key>)
    requires Ring.WellFormed(w.net) && n in w.net && n in w.stores
  {
    forall e :: e in w.stores[n] ==> CanSend(w.net, n, LowEnd(w.net, n, stale), e.id, gone)
  }

  ghost function Settled(w: World, n: Key, stale: Key): World
    requires Ring.WellFormed(w.net) && n in w.net && n in w.stores
  {
    Sweep(w, n, ToOwners(w.net, n, LowEnd(w.net, n, stale)))
  }

  lemma SettledFrame(w: World, n: Key, stale: Key)
    requires Ring.WellFormed(w.net) && n in w.net && n in w.stores
    ensures Settled(w, n, stale).net == w.net && Settled(w, n, stale).stores.Keys == w.stores.Keys
  {
  }

  /** The turn runs to its end. Otherwise the tracker keeps its own lock for ever: it waits for its
      own answer, or a request to somebody who is gone failed. */
  ghost predicate TurnRuns(w: World, t: Turn, gone: set<Key>) {
    && Ring.WellFormed(w.net) && t.who in w.stores
    && RingTurnRuns(w.net, t.who, t.repairs, gone)
    && CanSettle(World(RingTurn(w.net, t.who, t.repairs, gone), w.stores), t.who, t.stale, gone)
  }

  ghost function Turned(w: World, t: Turn, gone: set<Key>): (w': World)
    requires TurnRuns(w, t, gone)
    ensures w'.net == RingTurn(w.net, t.who, t.repairs, gone) && w'.stores.Keys == w.stores.Keys
    ensures Ring.WellFormed(w'.net) && w'.net.Keys == w.net.Keys
  {
    Settled(World(RingTurn(w.net, t.who, t.repairs, gone), w.stores), t.who, t.stale)
  }

  ghost predicate TurnsRun(w: World, turns: seq<Turn>, gone: set<Key>)
    decreases |turns|
  {
    turns == [] || (TurnRuns(w, turns[0], gone) && TurnsRun(Turned(w, turns[0], gone), turns[1..], gone))
  }

  ghost function AllTurned(w: World, turns: seq<Turn>, gone: set<Key>): (w': World)
    requires TurnsRun(w, turns, gone)
    ensures w'.stores.Keys == w.stores.Keys && w'.net.Keys == w.net.Keys
    ensures Ring.WellFormed(w.net) ==> Ring.WellFormed(w'.net)
    decreases |turns|
  {
    if turns == [] then w else AllTurned(Turned(w, turns[0], gone), turns[1..], gone)
  }

  /** The ring goes its own way. */
  lemma {:induction false} TurnsOnRing(w: World, turns: seq<Turn>, gone: set<Key>)
    requires Ring.WellFormed(w.net) && TurnsRun(w, turns, gone)
    ensures RingTurnsRun(w.net, turns, gone) && AllTurned(w, turns, gone).net == AfterTurns(w.net, turns, gone)
    decreases |turns|
  {
    hide RingTurnRuns, RingTurn, CanSettle, Sweep;
    if turns == [] {
    } else {
      TurnsOnRing(Turned(w, turns[0], gone), turns[1..], gone);
    }
  }

  // ---------------------------------------------------------------- nothing is lost

  /** The gone hold nothing. */
  ghost predicate Empty(w: World, gone: set<Key>) {
    forall m :: m in gone && m in w.stores ==> w.stores[m] == []
  }

  lemma SettleSends(w: World, n: Key, stale: Key, gone: set<Key>)
    requires Ring.WellFormed(w.net) && n in w.net && w.stores.Keys == w.net.Keys && CanSettle(w, n, stale, gone)
    ensures var rule := ToOwners(w.net, n, LowEnd(w.net, n, stale));
      && !Blocked(w, n, rule) && Reachable(w, n, rule)
      && forall e :: e in w.stores[n] && Dest(rule, e.id).Some? ==> Dest(rule, e.id).value !in gone
  {
    hide Select, FindNext, Answered;
    var lo := LowEnd(w.net, n, stale);
    var rule := ToOwners(w.net, n, lo);
    BlockedByFile(w, n, rule);
    forall e | e in w.stores[n] && Dest(rule, e.id).Some?
      ensures Dest(rule, e.id).value !in gone && Dest(rule, e.id).value in w.stores && Dest(rule, e.id).value != n
    {
      assert CanSend(w.net, n, lo, e.id, gone);
    }
  }

  /** Whatever the state of the ring, a turn that runs to its end loses no file, makes up none, and
      sends none to those who are gone. */
  lemma TurnConserves(w: World, cat: Catalogue, t: Turn, gone: set<Key>)
    requires Spread(w, cat) && Empty(w, gone) && TurnRuns(w, t, gone)
    ensures Spread(Turned(w, t, gone), cat) && Empty(Turned(w, t, gone), gone)
  {
    hide RingTurn, RingTurnRuns, CanSettle, Select, Loaded, Dest, Ascending, AllSaved, Agrees;
    var n, w1 := t.who, World(RingTurn(w.net, t.who, t.repairs, gone), w.stores);
    MemberTurns(w.net, n, t.repairs, gone);
    SpreadOnly(w, w1, cat);
    SettleSends(w1, n, t.stale, gone);
    var rule := ToOwners(w1.net, n, LowEnd(w1.net, n, t.stale));
    SweepConserves(w1, n, rule, cat);
    forall m | m in gone && m in w1.stores ensures Turned(w, t, gone).stores[m] == [] {
      SweepAt(w1, n, rule, cat, m);
      EmptyIffNothing(Turned(w, t, gone).stores[m]);
    }
  }

  lemma SpreadOnly(w: World, w': World, cat: Catalogue)
    requires Spread(w, cat) && w'.stores == w.stores && w'.net.Keys == w.net.Keys
    ensures Spread(w', cat)
  {
    hide Agrees, AllSaved;
    forall id | id in cat ensures StoredIn(w', Entry(id, cat[id])) {
      assert StoredIn(w, Entry(id, cat[id]));
    }
  }

  lemma {:induction false} TurnsConserve(w: World, cat: Catalogue, turns: seq<Turn>, gone: set<Key>)
    requires Spread(w, cat) && Empty(w, gone) && TurnsRun(w, turns, gone)
    ensures Spread(AllTurned(w, turns, gone), cat) && Empty(AllTurned(w, turns, gone), gone)
    decreases |turns|
  {
    hide Spread, Empty, TurnRuns, Turned;
    if turns == [] {
    } else {
      TurnConserves(w, cat, turns[0], gone);
      TurnsConserve(Turned(w, turns[0], gone), cat, turns[1..], gone);
    }
  }

  // ---------------------------------------------------------------- every file comes home

  /** The tracker holds only what it owns. */
  ghost predicate Clean(members: set<Key>, m: Key, s: Store) {
    forall e :: e in s ==> IsOwner(members, e.id, m)
  }

  /** Where the living form an ideal ring a tracker keeps what it owns and sends the rest to the
      owners. */
  lemma SettleDest(net: Net, n: Key, stale: Key, id: Key, gone: set<Key>)
    requires LiveIdeal(net, gone) && n in net && n !in gone && Untraced(net, gone, n) && id != n
    ensures var lo := LowEnd(net, n, stale);
      InsideOrEnd(id, lo, n) <==> IsOwner(net.Keys - gone, id, n)
    ensures Answered(net, n, id, gone) ==> IsOwner(net.Keys - gone, id, FindNext(net, n, id))
  {
    hide LookupPrev, IsOwner;
    ViewForm(net, gone);
    var v := ViewOf(net, gone);
    assert WellFormedAt(v, n) && IdealAt(v, n);
    assert LowEnd(net, n, stale) == v[n].prev.value;
    OwnerByArc(net.Keys - gone, v[n].prev.value, n, id);
    if Answered(net, n, id, gone) {
      StraightEndsAlive(net, n, id, gone);
      var c := LookupPrev(net, n, id);
      assert IdealAt(v, c);
      NextOwnsArc(net.Keys - gone, c, Succ(v, c), id);
    }
  }

  /** Such a turn leaves its tracker with what it owns, and no other with more than before. */
  lemma TurnCleans(w: World, cat: Catalogue, t: Turn, gone: set<Key>, m: Key)
    requires LiveIdeal(w.net, gone) && Spread(w, cat) && cat.Keys !! w.net.Keys && TurnRuns(w, t, gone)
    requires m in w.stores && m !in gone && (m == t.who || Clean(w.net.Keys - gone, m, w.stores[m]))
    ensures Clean(w.net.Keys - gone, m, Turned(w, t, gone).stores[m])
  {
    hide RingTurn, RingTurnRuns, Select, Loaded, Ascending, AllSaved, IsOwner, View, Ideal, Untraced, Answered, LowEnd;
    var n, w1 := t.who, World(RingTurn(w.net, t.who, t.repairs, gone), w.stores);
    MemberTurns(w.net, n, t.repairs, gone);
    TurnKeepsIdeal(w.net, n, t.repairs, gone);
    OwnTraces(w.net, n, t.repairs, gone);
    SpreadOnly(w, w1, cat);
    SettleSends(w1, n, t.stale, gone);
    var rule := ToOwners(w1.net, n, LowEnd(w1.net, n, t.stale));
    SweepAt(w1, n, rule, cat, m);
    forall e | e in Turned(w, t, gone).stores[m] ensures IsOwner(w.net.Keys - gone, e.id, m) {
      if e in w1.stores[n] {
        assert CanSend(w1.net, n, LowEnd(w1.net, n, t.stale), e.id, gone);
        assert Agrees(w.stores[n], cat);
        SettleDest(w1.net, n, t.stale, e.id, gone);
      }
    }
  }

  lemma OwnTraces(net: Net, n: Key, repairs: seq<Repair>, gone: set<Key>)
    requires LiveIdeal(net, gone) && RingTurnRuns(net, n, repairs, gone)
    ensures n in RingTurn(net, n, repairs, gone) && Untraced(RingTurn(net, n, repairs, gone), gone, n)
  {
    hide View, Ideal, RingTurnRuns, RingTurn, Inv, Untraced;
    ViewForm(net, gone);
    MemberTurns(net, n, repairs, gone);
    IdealIsInv(ViewOf(net, gone), n);
    TurnUntraces(net, gone, n, n, repairs, n);
  }

  /** m holds what it owns, and has forgotten those who are gone. */
  ghost predicate AtHome(w: World, m: Key, gone: set<Key>)
    requires m in w.stores && m in w.net
  {
    Clean(w.net.Keys - gone, m, w.stores[m]) && Untraced(w.net, gone, m)
  }

  lemma TurnBringsHome(w: World, cat: Catalogue, t: Turn, gone: set<Key>, m: Key)
    requires LiveIdeal(w.net, gone) && Spread(w, cat) && Empty(w, gone) && cat.Keys !! w.net.Keys
    requires TurnRuns(w, t, gone) && m in w.stores && m !in gone && (m == t.who || AtHome(w, m, gone))
    ensures LiveIdeal(Turned(w, t, gone).net, gone) && AtHome(Turned(w, t, gone), m, gone)
  {
    hide View, Ideal, RingTurnRuns, RingTurn, Inv, Untraced, CanSettle, Settled, Clean;
    TurnCleans(w, cat, t, gone, m);
    TurnKeepsIdeal(w.net, t.who, t.repairs, gone);
    ViewForm(w.net, gone);
    MemberTurns(w.net, t.who, t.repairs, gone);
    IdealIsInv(ViewOf(w.net, gone), t.who);
    TurnUntraces(w.net, gone, t.who, t.who, t.repairs, m);
  }

  lemma {:induction false} TurnsBringHome(w: World, cat: Catalogue, turns: seq<Turn>, gone: set<Key>, m: Key)
    requires LiveIdeal(w.net, gone) && Spread(w, cat) && Empty(w, gone) && cat.Keys !! w.net.Keys
    requires TurnsRun(w, turns, gone) && m in w.stores && m !in gone && (TakesTurn(turns, m) || AtHome(w, m, gone))
    ensures LiveIdeal(AllTurned(w, turns, gone).net, gone) && AtHome(AllTurned(w, turns, gone), m, gone)
    decreases |turns|
  {
    hide LiveIdeal, AtHome, TurnRuns, Turned, Empty;
    if turns == [] {
    } else {
      var t := turns[0];
      TurnConserves(w, cat, t, gone);
      TurnBringsHomeIf(w, cat, t, gone, m);
      if t.who != m && !AtHome(w, m, gone) {
        var i :| 0 <= i < |turns| && turns[i].who == m;
        assert turns[1..][i - 1].who == m;
      }
      TurnsBringHome(Turned(w, t, gone), cat, turns[1..], gone, m);
    }
  }

  lemma TurnBringsHomeIf(w: World, cat: Catalogue, t: Turn, gone: set<Key>, m: Key)
    requires LiveIdeal(w.net, gone) && Spread(w, cat) && Empty(w, gone) && cat.Keys !! w.net.Keys
    requires TurnRuns(w, t, gone) && m in w.stores && m !in gone
    ensures LiveIdeal(Turned(w, t, gone).net, gone)
    ensures m == t.who || AtHome(w, m, gone) ==> AtHome(Turned(w, t, gone), m, gone)
  {
    hide LiveIdeal, AtHome, Turned, RingTurnRuns, CanSettle, Empty;
    MemberTurns(w.net, t.who, t.repairs, gone);
    TurnBringsHome(w, cat, t, gone, t.who);
    if m == t.who || AtHome(w, m, gone) {
      TurnBringsHome(w, cat, t, gone, m);
    }
  }

  /** What is left when the entries of the gone are dropped. */
  ghost function Without(w: World, gone: set<Key>): World {
    World(w.net - gone, w.stores - gone)
  }

  lemma CleanKeeps(w: World, cat: Catalogue, gone: set<Key>, m: Key)
    requires Spread(w, cat) && Empty(w, gone) && m in w.stores && m !in gone
    requires forall k :: k in w.stores && k !in gone ==> Clean(w.net.Keys - gone, k, w.stores[k])
    ensures Keeps(w.net.Keys - gone, cat, m, w.stores[m])
  {
    hide IsOwner, AllSaved;
    forall id | id in cat && IsOwner(w.net.Keys - gone, id, m) ensures Entry(id, cat[id]) in w.stores[m] {
      assert StoredIn(w, Entry(id, cat[id]));
      var k :| k in w.stores && Entry(id, cat[id]) in w.stores[k];
      assert k !in gone && Clean(w.net.Keys - gone, k, w.stores[k]);
      OwnerIsUnique(w.net.Keys - gone, id, m, k);
    }
    assert Agrees(w.stores[m], cat) && Clean(w.net.Keys - gone, m, w.stores[m]);
  }

  lemma AllHomeRefines(w: World, cat: Catalogue, gone: set<Key>)
    requires LiveIdeal(w.net, gone) && Spread(w, cat) && Empty(w, gone) && cat.Keys !! w.net.Keys
    requires forall m :: m in w.stores && m !in gone ==> AtHome(w, m, gone)
    ensures Refines(Without(w, gone), cat)
  {
    hide IsOwner, Ideal, View, Clean, Untraced, Keeps, AllSaved, Agrees, Empty;
    assert NoTraces(w.net, gone);
    NoTracesView(w.net, gone);
    ViewForm(w.net, gone);
    forall m | m in w.stores && m !in gone ensures Keeps(w.net.Keys - gone, cat, m, w.stores[m]) {
      CleanKeeps(w, cat, gone, m);
    }
    assert (w.net - gone).Keys == w.net.Keys - gone && (w.stores - gone).Keys == w.stores.Keys - gone;
  }

  /** However the files lie about, once those left form an ideal ring and each of them has had a
      turn, every file is at its owner, none is lost, and nobody points at those who are gone. */
  lemma TurnsPlaceAll(w: World, cat: Catalogue, turns: seq<Turn>, gone: set<Key>)
    requires LiveIdeal(w.net, gone) && Spread(w, cat) && Empty(w, gone) && cat.Keys !! w.net.Keys
    requires TurnsRun(w, turns, gone) && EveryoneLeft(w.net, gone, turns) && !(w.net.Keys <= gone)
    ensures Refines(Without(AllTurned(w, turns, gone), gone), cat)
  {
    hide LiveIdeal, AtHome, TurnsRun, AllTurned, TakesTurn, Empty, Without;
    TurnsConserve(w, cat, turns, gone);
    var some :| some in w.net && some !in gone;
    TurnsBringHome(w, cat, turns, gone, some);
    forall m | m in w.stores && m !in gone ensures AtHome(AllTurned(w, turns, gone), m, gone) {
      TurnsBringHome(w, cat, turns, gone, m);
    }
    AllHomeRefines(AllTurned(w, turns, gone), cat, gone);
  }

  // ---------------------------------------------------------------- on an ideal ring all turns run

  /** What a turn needs of its own data: a member, and fingers that exist. */
  ghost predicate Sound(net: Net, gone: set<Key>, t: Turn) {
    t.who in net && t.who !in gone && Indexed(t.repairs)
  }

  lemma IdealSettles(w: World, n: Key, stale: Key, gone: set<Key>)
    requires LiveIdeal(w.net, gone) && NoTraces(w.net, gone) && n in w.net && n !in gone && n in w.stores
    ensures CanSettle(w, n, stale, gone)
  {
    hide View, Ideal, Untraced, IsOwner, Straight;
    forall e | e in w.stores[n] ensures CanSend(w.net, n, LowEnd(w.net, n, stale), e.id, gone) {
      if e.id != n {
        assert Untraced(w.net, gone, n);
        TracelessStraight(w.net, n, e.id, gone);
        AnswerAlive(w.net, n, e.id, gone);
        SettleDest(w.net, n, stale, e.id, gone);
      }
    }
  }

  lemma IdealTurnRuns(w: World, t: Turn, gone: set<Key>)
    requires LiveIdeal(w.net, gone) && NoTraces(w.net, gone) && w.stores.Keys == w.net.Keys && Sound(w.net, gone, t)
    ensures TurnRuns(w, t, gone)
    ensures LiveIdeal(Turned(w, t, gone).net, gone) && NoTraces(Turned(w, t, gone).net, gone)
  {
    hide View, Ideal, RingTurnRuns, RingTurn, Inv, NoTraces, CanSettle, Settled;
    ViewForm(w.net, gone);
    IdealIsInv(ViewOf(w.net, gone), t.who);
    TracelessRuns(w.net, gone, t.who, t.who, t.repairs);
    TurnKeepsIdeal(w.net, t.who, t.repairs, gone);
    IdealSettles(World(RingTurn(w.net, t.who, t.repairs, gone), w.stores), t.who, t.stale, gone);
  }

  /** On an ideal ring without traces of anybody gone no turn is ever blocked and none fails,
      whatever files a tracker holds and whatever fingers are repaired. */
  lemma {:induction false} IdealTurnsRun(w: World, turns: seq<Turn>, gone: set<Key>)
    requires LiveIdeal(w.net, gone) && NoTraces(w.net, gone) && w.stores.Keys == w.net.Keys
    requires forall i :: 0 <= i < |turns| ==> Sound(w.net, gone, turns[i])
    ensures TurnsRun(w, turns, gone)
    decreases |turns|
  {
    hide LiveIdeal, NoTraces, TurnRuns, Turned, Indexed;
    if turns == [] {
    } else {
      IdealTurnRuns(w, turns[0], gone);
      IdealTurnsRun(Turned(w, turns[0], gone), turns[1..], gone);
    }
  }

  lemma IdealIsLive(net: Net)
    requires Ideal(net)
    ensures LiveIdeal(net, {}) && NoTraces(net, {})
  {
    ViewOfAll(net);
    NobodyTraced(net);
  }

  /** A tracker all of whose files are within its own arc sends nothing. */
  lemma NothingSent(w: World, cat: Catalogue, n: Key, stale: Key, gone: set<Key>)
    requires Spread(w, cat) && Ring.WellFormed(w.net) && n in w.net
    requires forall e :: e in w.stores[n] ==> InsideOrEnd(e.id, LowEnd(w.net, n, stale), n)
    ensures CanSettle(w, n, stale, gone)
    ensures forall m, e :: m in w.stores ==> (e in Settled(w, n, stale).stores[m] <==> e in w.stores[m])
  {
    hide Select, Loaded, Ascending, AllSaved, Agrees, FindNext;
    var rule := ToOwners(w.net, n, LowEnd(w.net, n, stale));
    SettleSends(w, n, stale, gone);
    forall m, e | m in w.stores ensures e in Settled(w, n, stale).stores[m] <==> e in w.stores[m] {
      SweepAt(w, n, rule, cat, m);
    }
  }

  // ---------------------------------------------------------------- turns that have nothing to do

  ghost predicate AllClean(w: World, gone: set<Key>) {
    forall m :: m in w.stores && m !in gone ==> Clean(w.net.Keys - gone, m, w.stores[m])
  }

  /** Pointers to the gone do not keep a tracker from a turn without repairs when it holds only what
      it owns. */
  lemma CleanTurnRuns(w: World, cat: Catalogue, gone: set<Key>, t: Turn)
    requires LiveIdeal(w.net, gone) && Spread(w, cat) && cat.Keys !! w.net.Keys && AllClean(w, gone)
    requires t.who in w.net && t.who !in gone && t.repairs == []
    ensures TurnRuns(w, t, gone)
    ensures LiveIdeal(Turned(w, t, gone).net, gone) && AllClean(Turned(w, t, gone), gone)
  {
    hide View, Ideal, Inv, Untraced, IsOwner, Clean, Agrees, AllSaved, StoredIn, Settled, RingTurn, RingTurnRuns;
    var k := t.who;
    ViewForm(w.net, gone);
    IdealIsInv(ViewOf(w.net, gone), k);
    PlainTurnRuns(w.net, k, gone, k);
    TurnKeepsIdeal(w.net, k, [], gone);
    OwnTraces(w.net, k, [], gone);
    var w1 := World(RingTurn(w.net, k, [], gone), w.stores);
    SpreadOnly(w, w1, cat);
    CleanSettles(w1, cat, k, t.stale, gone);
    forall m | m in w.stores && m !in gone ensures Clean(w.net.Keys - gone, m, Turned(w, t, gone).stores[m]) {
      TurnCleans(w, cat, t, gone, m);
    }
  }

  lemma PlainTurnRuns(net: Net, k: Key, gone: set<Key>, founder: Key)
    requires LiveInv(net, gone, founder) && k in net && k !in gone
    ensures RingTurnRuns(net, k, [], gone)
  {
    hide View, Checked, Stabilizing, CanStabilize, Stabilized, Anchored, Linked;
    ViewForm(net, gone);
    CheckedForm(net, k, gone);
    CheckUnseen(net, k, gone);
    StabilizingSeen(Checked(net, k, gone), k, gone);
    StabilizingForm(Checked(net, k, gone), k, gone);
  }

  lemma CleanSettles(w: World, cat: Catalogue, k: Key, stale: Key, gone: set<Key>)
    requires LiveIdeal(w.net, gone) && Spread(w, cat) && cat.Keys !! w.net.Keys && k in w.net && k !in gone
    requires Untraced(w.net, gone, k) && Clean(w.net.Keys - gone, k, w.stores[k])
    ensures CanSettle(w, k, stale, gone)
  {
    hide View, Ideal, Untraced, IsOwner, AllSaved, StoredIn, Settled;
    forall e | e in w.stores[k] ensures InsideOrEnd(e.id, LowEnd(w.net, k, stale), k) {
      assert Agrees(w.stores[k], cat);
      SettleDest(w.net, k, stale, e.id, gone);
    }
    NothingSent(w, cat, k, stale, gone);
  }

  lemma {:induction false} CleanTurnsRun(w: World, cat: Catalogue, gone: set<Key>, turns: seq<Turn>)
    requires LiveIdeal(w.net, gone) && Spread(w, cat) && Empty(w, gone) && cat.Keys !! w.net.Keys && AllClean(w, gone)
    requires forall i :: 0 <= i < |turns| ==>
      turns[i].who in w.net && turns[i].who !in gone && turns[i].repairs == []
    ensures TurnsRun(w, turns, gone)
    decreases |turns|
  {
    hide LiveIdeal, Spread, Empty, AllClean, TurnRuns, Turned;
    if turns == [] {
    } else {
      CleanTurnRuns(w, cat, gone, turns[0]);
      TurnConserves(w, cat, turns[0], gone);
      CleanTurnsRun(Turned(w, turns[0], gone), cat, gone, turns[1..]);
    }
  }

  /** A turn with these repairs of every member. */
  lemma OneOfEach(members: set<Key>, repairs: seq<Repair>, stale: Key) returns (turns: seq<Turn>)
    ensures forall k :: k in members ==> TakesTurn(turns, k)
    ensures forall i :: 0 <= i < |turns| ==> turns[i].who in members && turns[i].repairs == repairs
  {
    if members == {} {
      turns := [];
    } else {
      var k :| k in members;
      var rest := OneOfEach(members - {k}, repairs, stale);
      turns := [Turn(k, repairs, stale)] + rest;
      assert turns[0].who == k;
      forall m | m in members && m != k ensures TakesTurn(turns, m) {
        assert m in members - {k} && TakesTurn(rest, m);
        var i :| 0 <= i < |rest| && rest[i].who == m;
        assert turns[i + 1].who == m;
      }
    }
  }
}

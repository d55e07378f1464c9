/** The trackers and their ring together: redistribution, and whole runs of the system. */
module Swarm {
  import opened Circle
  import opened KeyBytes
  import opened Ring
  import opened RingInvariant
  import opened RingConvergence
  import opened RingLookup
  import opened RingTurns
  import opened RingRepair
  import opened SortedSeq
  import opened TorrentFile
  import opened Ownership
  import opened Placement
  import opened Upkeep
  import opened Arrival
  import opened Departure

  // ---------------------------------------------------------------- downloading adds a peer

  function WithPeer(f: File, peer: Entry<Bytes>): File {
    f.(peers := Inserted(f.peers, peer))
  }

  /** One peer more, unless there is one with that id; nothing else changes. */
  lemma WithPeerLaws(f: File, peer: Entry<Bytes>)
    requires Ascending(f.peers)
    ensures WithPeer(f, peer).header == f.header && Ascending(WithPeer(f, peer).peers)
    ensures forall x :: x in WithPeer(f, peer).peers <==> x in f.peers || (x == peer && peer.id !in Ids(f.peers))
  {
    InsertedLaws(f.peers, peer);
  }

  /** The file with this id gets one more peer. */
  ghost function PeerAdded(s: Store, id: Key, peer: Entry<Bytes>): Store {
    if s == [] then []
    else if s[0].id == id then [Entry(id, WithPeer(s[0].value, peer))] + s[1..]
    else [s[0]] + PeerAdded(s[1..], id, peer)
  }

  lemma {:induction false} PeerAddedAt(s: Store, id: Key, peer: Entry<Bytes>)
    ensures |PeerAdded(s, id, peer)| == |s|
    ensures forall i :: 0 <= i < |s| ==> PeerAdded(s, id, peer)[i].id == s[i].id
    ensures Ascending(s) ==> forall i :: 0 <= i < |s| ==>
      PeerAdded(s, id, peer)[i] == if s[i].id == id then Entry(id, WithPeer(s[i].value, peer)) else s[i]
  {
    if s == [] || s[0].id == id {
    } else {
      PeerAddedAt(s[1..], id, peer);
    }
  }

  lemma PeerAddedLaws(s: Store, id: Key, peer: Entry<Bytes>)
    requires Ascending(s)
    ensures Ascending(PeerAdded(s, id, peer))
    ensures forall e :: e in PeerAdded(s, id, peer) ==>
      if e.id == id then exists f :: Entry(id, f) in s && e.value == WithPeer(f, peer) else e in s
    ensures forall e :: e in s ==>
      (if e.id == id then Entry(id, WithPeer(e.value, peer)) else e) in PeerAdded(s, id, peer)
  {
    hide WithPeer;
    var r := PeerAdded(s, id, peer);
    PeerAddedAt(s, id, peer);
    forall e | e in r
      ensures if e.id == id then exists f :: Entry(id, f) in s && e.value == WithPeer(f, peer) else e in s
    {
      var i :| 0 <= i < |r| && r[i] == e;
      assert s[i] in s && (e.id == id ==> Entry(id, s[i].value) == s[i]);
    }
    forall e | e in s ensures (if e.id == id then Entry(id, WithPeer(e.value, peer)) else e) in r {
      var i :| 0 <= i < |s| && s[i] == e;
      assert r[i] in r;
    }
  }

  /** tracker_download: the owner that answered the search is told of a new peer. */
  ghost function Fetched(w: World, n: Key, id: Key, peer: Entry<Bytes>): World
    requires Ring.WellFormed(w.net) && w.stores.Keys == w.net.Keys && n in w.net
  {
    var owner := FindNext(w.net, n, id);
    w.(stores := w.stores[owner := PeerAdded(w.stores[owner], id, peer)])
  }

  ghost function Shared(cat: Catalogue, id: Key, peer: Entry<Bytes>): Catalogue {
    if id in cat then cat[id := WithPeer(cat[id], peer)] else cat
  }

  lemma FetchKeeps(w: World, cat: Catalogue, n: Key, id: Key, peer: Entry<Bytes>)
    requires Refines(w, cat) && n in w.net && id !in w.net
    ensures Refines(Fetched(w, n, id, peer), Shared(cat, id, peer))
  {
    hide IsOwner, Ascending, PeerAdded, Inserted, Saved;
    var owner, cat', w' := FindNext(w.net, n, id), Shared(cat, id, peer), Fetched(w, n, id, peer);
    FindNextIsOwner(w.net, n, id);
    forall m | m in w.stores ensures Keeps(w.net.Keys, cat', m, w'.stores[m]) {
      assert Keeps(w.net.Keys, cat, m, w.stores[m]);
      if m == owner {
        PeerAddedLaws(w.stores[m], id, peer);
        OwnerShares(w.net.Keys, cat, m, w.stores[m], w'.stores[m], id, peer);
      } else if IsOwner(w.net.Keys, id, m) {
        OwnerIsUnique(w.net.Keys, id, m, owner);
      }
    }
  }

  lemma OwnerShares(members: set<Key>, cat: Catalogue, m: Key, s: Store, r: Store, id: Key, peer: Entry<Bytes>)
    requires Keeps(members, cat, m, s) && Ascending(r)
    requires forall e :: e in r ==>
      if e.id == id then exists f :: Entry(id, f) in s && e.value == WithPeer(f, peer) else e in s
    requires forall e :: e in s ==> (if e.id == id then Entry(id, WithPeer(e.value, peer)) else e) in r
    ensures Keeps(members, Shared(cat, id, peer), m, r)
  {
    hide IsOwner, Ascending, WithPeer;
    var cat' := Shared(cat, id, peer);
    forall e ensures e in r <==> e.id in cat' && cat'[e.id] == e.value && IsOwner(members, e.id, m) {
      if e.id in cat && IsOwner(members, e.id, m) {
        assert Entry(e.id, cat[e.id]) in s;
      }
      if e in r && e.id == id {
        var f :| Entry(id, f) in s && e.value == WithPeer(f, peer);
      }
    }
  }

  // ---------------------------------------------------------------- whole runs

  /** What can happen between two states in which the ring is ideal and every file at its owner. A
      join or a departure goes on with turns until the ring is ideal again, and then until each
      tracker has had one more. */
  datatype Event =
    | Upload(n: Key, id: Key, f: File)
    | Fetch(n: Key, id: Key, peer: Entry<Bytes>)
    | Enter(n: Key, contact: Key, turns: seq<Turn>, last: seq<Turn>)
    | Exit(n: Key, turns: seq<Turn>, last: seq<Turn>)
    | Periodic(turn: Turn)

  /** The file is filed under its own id and its peers are sorted. */
  ghost predicate Genuine(id: Key, f: File) {
    Storable(f) && IdOf(f) == id
  }

  /** No tracker has a file whose id is k. */
  ghost predicate Unused(w: World, k: Key) {
    forall m, e :: m in w.stores && e in w.stores[m] ==> e.id != k
  }

  /** The state a run is in between two events. */
  ghost predicate Ready(w: World) {
    Ideal(w.net) && w.stores.Keys == w.net.Keys
  }

  /** n has joined through `contact` and taken over its files. */
  ghost function Newcomer(w: World, n: Key, contact: Key): World
    requires Ready(w) && contact in w.net && n !in w.net
  {
    Arrived(w, n, FindNext(w.net, contact, n), Joined(w.net, n, contact))
  }

  /** The turns run to their end; after the first ones those left form an ideal ring, and the last
      ones give each of them a turn. */
  ghost predicate Settles(w: World, turns: seq<Turn>, last: seq<Turn>, gone: set<Key>) {
    && TurnsRun(w, turns, gone)
    && var w1 := AllTurned(w, turns, gone);
    && LiveIdeal(w1.net, gone) && TurnsRun(w1, last, gone) && EveryoneLeft(w1.net, gone, last)
  }

  ghost function AfterSettling(w: World, turns: seq<Turn>, last: seq<Turn>, gone: set<Key>): World
    requires Settles(w, turns, last, gone)
  {
    Without(AllTurned(AllTurned(w, turns, gone), last, gone), gone)
  }

  ghost predicate Allowed(w: World, ev: Event)
    requires Ready(w)
  {
    match ev
    case Upload(n, id, f) => n in w.net && id !in w.net && Genuine(id, f)
    case Fetch(n, id, peer) => n in w.net && id !in w.net && IsPeer(peer)
    case Enter(n, contact, turns, last) =>
      contact in w.net && n !in w.net && Unused(w, n) && Settles(Newcomer(w, n, contact), turns, last, {})
    case Exit(n, turns, last) =>
      n in w.net && Succ(w.net, n) != n && Settles(Departed(w, n), turns, last, {n})
    case Periodic(t) => Sound(w.net, {}, t)
  }

  /** Between two events every turn runs. */
  lemma PeriodicRuns(w: World, t: Turn)
    requires Ready(w) && Sound(w.net, {}, t)
    ensures TurnRuns(w, t, {}) && Ideal(Turned(w, t, {}).net)
  {
    hide Ideal, TurnRuns, Turned, View;
    IdealIsLive(w.net);
    IdealTurnRuns(w, t, {});
    ViewOfAll(Turned(w, t, {}).net);
  }

  ghost function After(w: World, ev: Event): World
    requires Ready(w) && Allowed(w, ev)
  {
    match ev
    case Upload(n, id, f) => Published(w, n, id, f)
    case Fetch(n, id, peer) => Fetched(w, n, id, peer)
    case Enter(n, contact, turns, last) => AfterSettling(Newcomer(w, n, contact), turns, last, {})
    case Exit(n, turns, last) => AfterSettling(Departed(w, n), turns, last, {n})
    case Periodic(t) =>
      PeriodicRuns(w, t);
      Turned(w, t, {})
  }

  /** What the event means for someone who sees only the catalogue. */
  ghost function Catalogued(cat: Catalogue, ev: Event): Catalogue {
    match ev
    case Upload(n, id, f) => Listed(cat, id, f)
    case Fetch(n, id, peer) => Shared(cat, id, peer)
    case Enter(_, _, _, _) => cat
    case Exit(_, _, _) => cat
    case Periodic(_) => cat
  }

  lemma UnusedIsUnlisted(w: World, cat: Catalogue, n: Key, some: Key)
    requires Refines(w, cat) && some in w.net && Unused(w, n)
    ensures n !in cat
  {
    RefinesIsSpread(w, cat, some);
    assert n in cat ==> StoredIn(w, Entry(n, cat[n]));
  }

  /** The ring of those left is ideal in the end, and nobody points at those who are gone. */
  lemma SettlingIsReady(w: World, turns: seq<Turn>, last: seq<Turn>, gone: set<Key>, some: Key)
    requires Settles(w, turns, last, gone) && w.stores.Keys == w.net.Keys && some in w.net && some !in gone
    ensures Ready(AfterSettling(w, turns, last, gone))
    ensures AfterSettling(w, turns, last, gone).net.Keys == w.net.Keys - gone
  {
    hide TurnsRun, AllTurned, Ideal, Inv, View, RingTurnsRun, AfterTurns, TakesTurn, Untraced;
    var w1 := AllTurned(w, turns, gone);
    TurnsOnRing(w1, last, gone);
    ViewForm(w1.net, gone);
    IdealIsInv(ViewOf(w1.net, gone), some);
    TurnsStayIdeal(w1.net, last, gone);
    var net := AfterTurns(w1.net, last, gone);
    forall k | k in net && k !in gone ensures Untraced(net, gone, k) {
      TurnsUntrace(w1.net, gone, some, last, k);
    }
    NoTracesView(net, gone);
    ViewForm(net, gone);
  }

  lemma ReadyAfter(w: World, ev: Event)
    requires Ready(w) && Allowed(w, ev)
    ensures Ready(After(w, ev))
  {
    hide IdealAt, Settles, AfterSettling, Turned, Departed, Arrived, Joined;
    match ev
    case Upload(_, _, _) =>
    case Fetch(_, _, _) =>
    case Enter(n, contact, turns, last) =>
      NewcomerFrame(w, n, contact);
      SettlingIsReady(Newcomer(w, n, contact), turns, last, {}, n);
    case Exit(n, turns, last) =>
      DepartedFrame(w, n);
      SettlingIsReady(Departed(w, n), turns, last, {n}, Succ(w.net, n));
    case Periodic(t) => PeriodicRuns(w, t);
  }

  lemma NewcomerFrame(w: World, n: Key, contact: Key)
    requires Ready(w) && contact in w.net && n !in w.net
    ensures Newcomer(w, n, contact).net == Joined(w.net, n, contact)
    ensures Newcomer(w, n, contact).net.Keys == w.net.Keys + {n} == Newcomer(w, n, contact).stores.Keys
  {
    hide Arrived, IdealAt, Joined;
    ArrivedStores(w, n, FindNext(w.net, contact, n), Joined(w.net, n, contact));
    JoinedKeys(w.net, n, contact);
  }

  lemma SettlingRefines(w: World, cat: Catalogue, turns: seq<Turn>, last: seq<Turn>, gone: set<Key>, some: Key)
    requires Settles(w, turns, last, gone) && Spread(w, cat) && Empty(w, gone) && cat.Keys !! w.net.Keys
    requires some in w.net && some !in gone
    ensures Refines(AfterSettling(w, turns, last, gone), cat)
  {
    hide TurnsRun, AllTurned, Ideal, View, TakesTurn, Spread, Empty, Without, LiveIdeal;
    TurnsConserve(w, cat, turns, gone);
    TurnsPlaceAll(AllTurned(w, turns, gone), cat, last, gone);
  }

  lemma EnterKeeps(w: World, cat: Catalogue, n: Key, contact: Key, turns: seq<Turn>, last: seq<Turn>)
    requires Refines(w, cat) && Ready(w) && Allowed(w, Enter(n, contact, turns, last))
    ensures Refines(After(w, Enter(n, contact, turns, last)), cat)
  {
    hide Settles, AfterSettling, Keeps, IdealAt, Arrived, Joined, HalfJoined, Inv, Back;
    UnusedIsUnlisted(w, cat, n, contact);
    var p, s := ArrivedHanded(w, cat, n, contact);
    NewcomerFrame(w, n, contact);
    SettlingRefines(Newcomer(w, n, contact), cat, turns, last, {}, n);
  }

  lemma ExitKeeps(w: World, cat: Catalogue, n: Key, turns: seq<Turn>, last: seq<Turn>)
    requires Refines(w, cat) && Ready(w) && Allowed(w, Exit(n, turns, last))
    ensures Refines(After(w, Exit(n, turns, last)), cat)
  {
    hide Settles, AfterSettling, Keeps, IdealAt, Departed, HandedOver;
    DepartedInherited(w, cat, n);
    InheritedForm(Departed(w, n), cat, n, Succ(w.net, n));
    SettlingRefines(Departed(w, n), cat, turns, last, {n}, Succ(w.net, n));
  }

  lemma PeriodicKeeps(w: World, cat: Catalogue, t: Turn)
    requires Refines(w, cat) && Ready(w) && Sound(w.net, {}, t)
    ensures TurnRuns(w, t, {}) && Refines(Turned(w, t, {}), cat)
  {
    hide Ideal, TurnRuns, Turned, View, Keeps, AtHome, Spread, Without, LiveIdeal;
    PeriodicRuns(w, t);
    IdealIsLive(w.net);
    RefinesIsSpread(w, cat, t.who);
    TurnConserves(w, cat, t, {});
    forall m | m in w.stores ensures AtHome(Turned(w, t, {}), m, {}) {
      RefinesIsHome(w, cat, m);
      TurnBringsHome(w, cat, t, {}, m);
    }
    IdealIsLive(Turned(w, t, {}).net);
    AllHomeRefines(Turned(w, t, {}), cat, {});
    WithoutNobody(Turned(w, t, {}));
  }

  lemma RefinesIsHome(w: World, cat: Catalogue, m: Key)
    requires Refines(w, cat) && m in w.stores
    ensures AtHome(w, m, {})
  {
    hide IsOwner;
    assert Keeps(w.net.Keys, cat, m, w.stores[m]);
    assert w.net.Keys - {} == w.net.Keys;
  }

  lemma WithoutNobody(w: World)
    ensures Without(w, {}) == w
  {
    assert w.net - {} == w.net && w.stores - {} == w.stores;
  }

  /** Each event does to the whole swarm what it means for the catalogue. */
  lemma EventRefines(w: World, cat: Catalogue, ev: Event)
    requires Refines(w, cat) && Allowed(w, ev)
    ensures Refines(After(w, ev), Catalogued(cat, ev))
  {
    hide Keeps, Ideal, Settles, AfterSettling, Turned, Departed, Newcomer;
    match ev
    case Upload(n, id, f) => PublishKeeps(w, cat, n, id, f);
    case Fetch(n, id, peer) => FetchKeeps(w, cat, n, id, peer);
    case Enter(n, contact, turns, last) => EnterKeeps(w, cat, n, contact, turns, last);
    case Exit(n, turns, last) => ExitKeeps(w, cat, n, turns, last);
    case Periodic(t) => PeriodicKeeps(w, cat, t);
  }

  /** One tracker alone, without files. */
  ghost function Start(n: Key): World {
    World(Founded(n), map[n := []])
  }

  lemma StartRefines(n: Key)
    ensures Refines(Start(n), map[])
  {
  }

  /** Every event of the run is allowed where it happens. */
  ghost predicate Runs(w: World, events: seq<Event>)
    requires Ready(w)
    decreases |events|
  {
    if events == [] then true
    else
      && Allowed(w, events[0])
      && (ReadyAfter(w, events[0]); Runs(After(w, events[0]), events[1..]))
  }

  ghost function End(w: World, events: seq<Event>): (w': World)
    requires Ready(w) && Runs(w, events)
    ensures Ready(w')
    decreases |events|
  {
    if events == [] then w
    else
      ReadyAfter(w, events[0]);
      End(After(w, events[0]), events[1..])
  }

  ghost function CataloguedAll(cat: Catalogue, events: seq<Event>): Catalogue
    decreases |events|
  {
    if events == [] then cat else CataloguedAll(Catalogued(cat, events[0]), events[1..])
  }

  lemma {:induction false} RunRefines(w: World, cat: Catalogue, events: seq<Event>)
    requires Refines(w, cat) && Runs(w, events)
    ensures Refines(End(w, events), CataloguedAll(cat, events))
    decreases |events|
  {
    hide Keeps, IdealAt, WellFormedAt, Allowed, After, Catalogued;
    if events == [] {
    } else {
      EventRefines(w, cat, events[0]);
      RunRefines(After(w, events[0]), Catalogued(cat, events[0]), events[1..]);
    }
  }

  /** After every run from a lone tracker on, a search for any id that is no tracker's gets the
      same answer from everywhere: what the uploads and downloads made of it, or nothing. */
  lemma SearchAnswersCatalogue(founder: Key, events: seq<Event>, n: Key, id: Key)
    requires (StartRefines(founder); Runs(Start(founder), events))
    requires n in End(Start(founder), events).net && id !in End(Start(founder), events).net
    ensures var cat := CataloguedAll(map[], events);
      Query(End(Start(founder), events), n, id) == if id in cat then Some(cat[id]) else None
  {
    StartRefines(founder);
    RunRefines(Start(founder), map[], events);
    QueryFinds(End(Start(founder), events), CataloguedAll(map[], events), n, id);
  }

  // ---------------------------------------------------------------- runs can always go on

  /** Any node with an unused id can join through any member: one turn of its predecessor makes the
      ring ideal, and then everyone has one, whatever they repair. */
  lemma JoinIsPossible(w: World, n: Key, contact: Key, repairs: seq<Repair>)
    returns (turns: seq<Turn>, last: seq<Turn>)
    requires Ready(w) && contact in w.net && n !in w.net && Unused(w, n) && Indexed(repairs)
    ensures |turns| == 1 && Allowed(w, Enter(n, contact, turns, last))
    ensures turns[0].repairs == repairs && forall i :: 0 <= i < |last| ==> last[i].repairs == repairs
  {
    hide IdealAt, WellFormedAt, Settles, Newcomer, Joined, HalfJoined, Inv, Indexed;
    var p, s := HalfJoinedFrom(w.net, n, contact);
    NewcomerFrame(w, n, contact);
    var t := Turn(p, repairs, n);
    turns := [t];
    last := OneCloses(Newcomer(w, n, contact), n, p, s, contact, t);
  }

  /** The turn of p, and then one of each. */
  lemma OneCloses(w: World, n: Key, p: Key, s: Key, founder: Key, t: Turn) returns (last: seq<Turn>)
    requires HalfJoined(w.net, n, p, s) && Inv(w.net, founder) && w.stores.Keys == w.net.Keys
    requires t.who == p && Indexed(t.repairs)
    ensures Settles(w, [t], last, {}) && forall i :: 0 <= i < |last| ==> last[i].repairs == t.repairs
  {
    hide Ideal, TurnRuns, Turned, HalfJoined, Inv, NoTraces, LiveIdeal, TurnsRun, AllTurned, Indexed, TakesTurn;
    HalfJoinedForm(w.net, n, p, s);
    PredecessorTurn(w, n, p, s, founder, t);
    OneTurn(w, t);
    var w1 := Turned(w, t, {});
    IdealIsLive(w1.net);
    last := OneOfEach(w1.net.Keys, t.repairs, n);
    IdealTurnsRun(w1, last, {});
  }

  lemma OneTurn(w: World, t: Turn)
    requires TurnRuns(w, t, {})
    ensures TurnsRun(w, [t], {}) && AllTurned(w, [t], {}) == Turned(w, t, {})
  {
    hide TurnRuns, Turned;
    assert [t][1..] == [];
  }

  /** Any of three or more can leave: some turns of its predecessor alone make the ring ideal, and
      then everyone has one. They repair nothing, because a repair can come to the node that left. */
  lemma LeaveIsPossible(w: World, cat: Catalogue, n: Key) returns (turns: seq<Turn>, last: seq<Turn>)
    requires Refines(w, cat) && n in w.net && Succ(w.net, n) != n && Third(w.net, n)
    ensures Allowed(w, Exit(n, turns, last))
  {
    hide IdealAt, TurnsRun, AllTurned, Departed, LiveIdeal, Spread, Empty, Inherited, IsNext, Clean;
    turns := GapCloses(w, cat, n);
    DepartedFrame(w, n);
    var w1, s := AllTurned(Departed(w, n), turns, {n}), Succ(w.net, n);
    InheritedForm(w1, cat, n, s);
    forall m | m in w1.stores && m !in {n} ensures Clean(w1.net.Keys - {n}, m, w1.stores[m]) {
      InheritedIsClean(w, w1, cat, n, s, m);
    }
    last := OneOfEach(w1.net.Keys - {n}, [], n);
    CleanTurnsRun(w1, cat, {n}, last);
  }

  lemma InheritedIsClean(w: World, w1: World, cat: Catalogue, n: Key, s: Key, m: Key)
    requires Ideal(w.net) && n in w.net && s == Succ(w.net, n) && s != n && w1.net.Keys == w.net.Keys
    requires Inherited(w1, cat, n, s) && m in w1.stores && m != n
    ensures Clean(w1.net.Keys - {n}, m, w1.stores[m])
  {
    hide IsOwner, IsNext, Agrees, AllSaved, StoredIn, Empty;
    assert IdealAt(w.net, n);
    forall e | e in w1.stores[m] ensures IsOwner(w1.net.Keys - {n}, e.id, m) {
      OwnerAfterLeave(w.net.Keys, n, s, e.id, m);
    }
  }

  // ---------------------------------------------------------------- a join that goes wrong

  lemma OwnerOfThree(a: Key, id: Key, n: Key, s: Key)
    requires a < id < n < s
    ensures IsOwner({a, s}, n, s) && IsOwner({a, s} + {n}, id, n)
  {
  }

  lemma TwoMembers(net: Net, a: Key, s: Key)
    requires Ideal(net) && net.Keys == {a, s} && a != s
    ensures net[s].prev == Some(a)
  {
    assert IdealAt(net, s) && WellFormedAt(net, s);
    assert Inside(a, s, s);
  }

  /** Two trackers a < s, a file whose id lies between them, and a newcomer n between that id and s
      whose predecessor field contains anything from id on. When n and then s have their turns
      before a has one, s waits for itself. The state is one that a join and an upload make. */
  lemma JoinCanBlock(a: Key, id: Key, n: Key, s: Key, f: File, stale: Key) returns (events: seq<Event>)
    requires a < id < n < s && Genuine(id, f) && !InsideOrEnd(id, stale, n)
    ensures Ready(Start(a)) && Runs(Start(a), events)
    ensures var w := End(Start(a), events);
      && w.net.Keys == {a, s} && Unused(w, n)
      && !TurnsRun(Newcomer(w, n, a), [Turn(n, [], stale), Turn(s, [], stale)], {})
  {
    hide IdealAt, WellFormedAt, Settles, AfterSettling, TurnsRun, Keeps, IsOwner, InsideOrEnd, Genuine, Arrived, Joined;
    StartRefines(a);
    var turns, last := JoinIsPossible(Start(a), s, a, []);
    var enter, upload := Enter(s, a, turns, last), Upload(a, id, f);
    EnterKeeps(Start(a), map[], s, a, turns, last);
    ReadyAfter(Start(a), enter);
    EnteredMembers(Start(a), s, a, turns, last);
    var w1 := After(Start(a), enter);
    assert w1.net.Keys == {a, s};
    ReadyAfter(w1, upload);
    EventRefines(w1, map[], upload);
    var w := After(w1, upload);
    var cat := Listed(map[], id, f);
    events := [enter, upload];
    TwoEvents(Start(a), enter, upload);
    NewcomerBlocked(w, cat, a, id, n, s, stale);
  }

  lemma EnteredMembers(w: World, n: Key, contact: Key, turns: seq<Turn>, last: seq<Turn>)
    requires Ready(w) && Allowed(w, Enter(n, contact, turns, last))
    ensures After(w, Enter(n, contact, turns, last)).net.Keys == w.net.Keys + {n}
  {
    hide IdealAt, WellFormedAt, Settles, AfterSettling, Arrived, Joined;
    NewcomerFrame(w, n, contact);
    SettlingIsReady(Newcomer(w, n, contact), turns, last, {}, n);
  }

  /** The first event of a run, and the rest. */
  lemma FirstEvent(w: World, ev: Event, rest: seq<Event>)
    requires Ready(w) && Allowed(w, ev) && Ready(After(w, ev)) && Runs(After(w, ev), rest)
    ensures Runs(w, [ev] + rest) && End(w, [ev] + rest) == End(After(w, ev), rest)
  {
    hide Allowed, After, Ready;
    var events := [ev] + rest;
    assert events[0] == ev && events[1..] == rest;
  }

  lemma NoEvent(w: World)
    requires Ready(w)
    ensures Runs(w, []) && End(w, []) == w
  {
  }

  lemma TwoEvents(w: World, one: Event, two: Event)
    requires Ready(w) && Allowed(w, one) && Ready(After(w, one)) && Allowed(After(w, one), two)
    requires Ready(After(After(w, one), two))
    ensures Runs(w, [one, two]) && End(w, [one, two]) == After(After(w, one), two)
  {
    hide Allowed, After, Ready, Runs, End;
    NoEvent(After(After(w, one), two));
    FirstEvent(After(w, one), two, []);
    assert [two] + [] == [two];
    FirstEvent(w, one, [two]);
    assert [one] + [two] == [one, two];
  }

  lemma NewcomerBlocked(w: World, cat: Catalogue, a: Key, id: Key, n: Key, s: Key, stale: Key)
    requires Refines(w, cat) && Ready(w) && w.net.Keys == {a, s} && a < id < n < s && cat.Keys == {id}
    requires !InsideOrEnd(id, stale, n)
    ensures Unused(w, n)
    ensures !TurnsRun(Newcomer(w, n, a), [Turn(n, [], stale), Turn(s, [], stale)], {})
  {
    hide IdealAt, WellFormedAt, TurnsRun, IsOwner, Inside, InsideOrEnd, Arrived, Joined, Spread, AllSaved;
    forall m, e | m in w.stores && e in w.stores[m] ensures e.id != n {
      assert Keeps(w.net.Keys, cat, m, w.stores[m]);
    }
    OwnerOfThree(a, id, n, s);
    FindNextIsOwner(w.net, a, n);
    OwnerIsUnique(w.net.Keys, n, s, FindNext(w.net, a, n));
    TwoMembers(w.net, a, s);
    NewcomerFrame(w, n, a);
    var joined := Joined(w.net, n, a);
    var w1 := Newcomer(w, n, a);
    MoveDataAt(w, cat, n, s, joined, n);
    assert Keeps(joined.Keys, cat, n, w1.stores[n]);
    var e := Entry(id, cat[id]);
    assert e in w1.stores[n];
    var turns := [Turn(n, [], stale), Turn(s, [], stale)];
    assert Foreign(w1.stores[n], stale, n);
    assert SendsBack(n, w1.stores[n], turns, 0) && ReachesSuccessor(a, s, turns, 1);
    JoinBlocksIff(w, cat, n, a, turns);
  }

  // ---------------------------------------------------------------- what was uploaded stays

  /** A file as it is listed: genuine, and saved. */
  ghost predicate Filed(id: Key, f: File) {
    Genuine(id, f) && SavedFile(f) == f
  }

  ghost predicate AllFiled(cat: Catalogue) {
    forall id :: id in cat ==> Filed(id, cat[id])
  }

  lemma SavedIsFiled(id: Key, f: File)
    requires Genuine(id, f)
    ensures Filed(id, SavedFile(f))
  {
    hide Saved, IsPeer, Ascending;
    SavedTwice(f.header);
    SavedKeepsId(f);
  }

  /** Only well-formed files with sorted peers, each under its own id and with its path, are ever
      stored. */
  lemma {:induction false} RunStaysFiled(w: World, cat: Catalogue, events: seq<Event>)
    requires Ready(w) && Runs(w, events) && AllFiled(cat)
    ensures AllFiled(CataloguedAll(cat, events))
    decreases |events|
  {
    hide Filed, Genuine, After, Ready, SavedFile;
    if events == [] {
    } else {
      var ev := events[0];
      if ev.Upload? {
        SavedIsFiled(ev.id, ev.f);
      }
      if ev.Fetch? && ev.id in cat {
        SharedIsFiled(ev.id, cat[ev.id], ev.peer);
      }
      ReadyAfter(w, ev);
      RunStaysFiled(After(w, ev), Catalogued(cat, ev), events[1..]);
    }
  }

  lemma SharedIsFiled(id: Key, f: File, peer: Entry<Bytes>)
    requires Filed(id, f) && IsPeer(peer)
    ensures Filed(id, WithPeer(f, peer))
  {
    hide Inserted, Ascending, IsPeer, Saved;
    InsertedLaws(f.peers, peer);
    var peers := Inserted(f.peers, peer);
    forall i | 0 <= i < |peers| ensures IsPeer(peers[i]) {
      assert peers[i] in peers;
    }
  }

  /** The later record is the earlier one, saved, with perhaps more peers. */
  ghost predicate Extends(f: File, g: File) {
    && g.header == Saved(f.header) && (forall p :: p in f.peers ==> p in g.peers)
    && (Ascending(f.peers) ==> Ascending(g.peers))
  }

  lemma EventExtends(cat: Catalogue, ev: Event, id: Key)
    requires id in cat && SavedFile(cat[id]) == cat[id] && Ascending(cat[id].peers)
    ensures id in Catalogued(cat, ev) && Extends(cat[id], Catalogued(cat, ev)[id])
    ensures SavedFile(Catalogued(cat, ev)[id]) == Catalogued(cat, ev)[id]
  {
    hide Inserted, Ascending, Saved;
    if ev.Fetch? && ev.id == id {
      InsertedLaws(cat[id].peers, ev.peer);
    }
  }

  lemma {:induction false} RunExtends(cat: Catalogue, events: seq<Event>, id: Key)
    requires id in cat && SavedFile(cat[id]) == cat[id] && Ascending(cat[id].peers)
    ensures id in CataloguedAll(cat, events) && Extends(cat[id], CataloguedAll(cat, events)[id])
    decreases |events|
  {
    hide Ascending, Catalogued, Saved;
    if events == [] {
    } else {
      EventExtends(cat, events[0], id);
      RunExtends(Catalogued(cat, events[0]), events[1..], id);
    }
  }

  /** A file uploaded under a new id is found afterwards, whatever happens in between, by every
      tracker there then is. Outside the path its header is the uploaded one, the path is the one
      under which trackers save it unless that is too long, and no peer is ever forgotten. */
  lemma UploadedIsFound(w: World, cat: Catalogue, up: Event, events: seq<Event>, n: Key)
    requires Refines(w, cat) && up.Upload? && Allowed(w, up) && up.id !in cat
    requires (ReadyAfter(w, up); Runs(After(w, up), events) && n in End(After(w, up), events).net)
    ensures var found := Query(End(After(w, up), events), n, up.id);
      && found.Some? && Extends(up.f, found.value) && |found.value.header| == HEADER
      && found.value.header[..PATH] == up.f.header[..PATH]
      && found.value.header[SIZE_FIELD..] == up.f.header[SIZE_FIELD..]
      && (|SavedPath(up.f.header)| < 512 ==> StringIn(found.value.header[PATH..SIZE_FIELD]) == SavedPath(up.f.header))
  {
    hide Saved, SavedPath, StringIn, IsOwner, Ascending;
    SavedKeepsData(up.f.header);
    SavedPathIsWritten(up.f.header);
    SavedTwice(up.f.header);
    EventRefines(w, cat, up);
    var cat' := Catalogued(cat, up);
    RunRefines(After(w, up), cat', events);
    RunExtends(cat', events, up.id);
    QueryFinds(End(After(w, up), events), CataloguedAll(cat', events), n, up.id);
  }

  /** After a download of a listed file the downloader is among the peers that a search answers
      with, from every tracker, as long as the swarm runs. */
  lemma DownloaderIsFound(w: World, cat: Catalogue, fetch: Event, events: seq<Event>, n: Key)
    requires Refines(w, cat) && AllFiled(cat) && fetch.Fetch? && Allowed(w, fetch) && fetch.id in cat
    requires (ReadyAfter(w, fetch); Runs(After(w, fetch), events) && n in End(After(w, fetch), events).net)
    ensures var found := Query(End(After(w, fetch), events), n, fetch.id);
      && found.Some? && found.value.header == cat[fetch.id].header
      && (forall p :: p in cat[fetch.id].peers ==> p in found.value.peers)
      && (fetch.peer in found.value.peers || fetch.peer.id in Ids(cat[fetch.id].peers))
  {
    hide Saved, IsOwner, Ascending, Ids, Inserted, IsPeer;
    var id, cat' := fetch.id, Catalogued(cat, fetch);
    assert Filed(id, cat[id]);
    InsertedLaws(cat[id].peers, fetch.peer);
    EventRefines(w, cat, fetch);
    RunRefines(After(w, fetch), cat', events);
    RunExtends(cat', events, id);
    QueryFinds(End(After(w, fetch), events), CataloguedAll(cat', events), n, id);
  }
}

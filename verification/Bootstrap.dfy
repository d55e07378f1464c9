/** The bootstrap server: it keeps the connected trackers in a sorted list and hands them out to
    newcomers in turn, with a cursor that goes round the list. */
module Bootstrap {
  import opened Circle
  import opened SortedSeq
  import opened LinkedList

  /** Where a tracker listens. */
  type Addr = int

  type Clients = seq<Entry<Addr>>

  /** The list, and the id that the cursor stands at. */
  datatype Desk = Desk(clients: Clients, cursor: Key)

  ghost predicate CursorOk(d: Desk) {
    Ascending(d.clients) && (d.clients == [] || d.cursor in Ids(d.clients))
  }

  ghost function At(s: Clients, id: Key): (k: nat)
    requires id in Ids(s)
    ensures k < |s| && s[k].id == id
  {
    assert exists x :: x in s && x.id == id;
    var k :| 0 <= k < |s| && s[k].id == id;
    k
  }

  /** The entry after place k, with the first one after the last. */
  ghost function Around(s: Clients, k: nat): Key
    requires k < |s|
  {
    if k + 1 < |s| then s[k + 1].id else s[0].id
  }

  /** A tracker connects: the new list with the cursor moved on, and the peer it is given. */
  ghost function Connected(d: Desk, e: Entry<Addr>): (r: (Desk, Option<Entry<Addr>>))
    requires CursorOk(d)
  {
    InsertedLaws(d.clients, e);
    var clients := Inserted(d.clients, e);
    if |clients| == 1 then (Desk(clients, clients[0].id), None)
    else
      var k := At(clients, d.cursor);
      (Desk(clients, Around(clients, k)), Some(clients[k]))
  }

  ghost function Disconnected(d: Desk, id: Key): Desk
    requires CursorOk(d) && d.clients != []
  {
    Desk(Removed(d.clients, id), if id == d.cursor then Around(d.clients, At(d.clients, d.cursor)) else d.cursor)
  }

  lemma InsertedIsLonger(s: Clients, e: Entry<Addr>)
    requires Ascending(s)
    ensures |Inserted(s, e)| >= 1 && |Inserted(s, e)| >= |s|
    ensures e.id !in Ids(s) ==> |Inserted(s, e)| == |s| + 1
  {
  }

  /** After any connect the cursor is in the list. A new tracker gets a peer exactly when there
      is one, and that is another tracker, still connected. */
  lemma ConnectKeeps(d: Desk, e: Entry<Addr>)
    requires CursorOk(d)
    ensures CursorOk(Connected(d, e).0) && Connected(d, e).0.clients == Inserted(d.clients, e) != []
    ensures e.id !in Ids(d.clients) ==>
      match Connected(d, e).1
      case None => d.clients == []
      case Some(peer) => peer in d.clients && peer.id != e.id && peer.id == d.cursor
  {
    hide Ascending, Inserted;
    InsertedLaws(d.clients, e);
    InsertedIsLonger(d.clients, e);
    var clients := Inserted(d.clients, e);
    if |clients| == 1 {
      Present(clients, 0);
    } else {
      var k := At(clients, d.cursor);
      Present(clients, if k + 1 < |clients| then k + 1 else 0);
    }
  }

  /** When the tracker at the cursor leaves, the cursor has gone on before. */
  lemma DisconnectKeeps(d: Desk, id: Key)
    requires CursorOk(d) && d.clients != []
    ensures CursorOk(Disconnected(d, id))
    ensures Ids(Disconnected(d, id).clients) == Ids(d.clients) - {id}
  {
    hide Inserted, Removed;
    RemovedLaws(d.clients, id);
    var rest := Removed(d.clients, id);
    if id == d.cursor {
      var k := At(d.clients, id);
      var next := if k + 1 < |d.clients| then k + 1 else 0;
      Present(d.clients, next);
      if next == k {
        RemovedAt(d.clients, k);
      }
    }
  }

  // ---------------------------------------------------------------- taking turns

  /** y is the first of these ids that is met after x on the way round. */
  ghost predicate NextOf(ids: set<Key>, x: Key, y: Key) {
    y in ids && forall z :: z in ids ==> Dist(x, y) <= Dist(x, z)
  }

  lemma AroundIsNext(s: Clients, k: nat)
    requires Ascending(s) && k < |s|
    ensures NextOf(Ids(s), s[k].id, Around(s, k))
    ensures |s| > 1 ==> Around(s, k) != s[k].id
  {
    forall z | z in Ids(s) ensures Dist(s[k].id, Around(s, k)) <= Dist(s[k].id, z) {
      var x :| x in s && x.id == z;
      var i :| 0 <= i < |s| && s[i] == x;
    }
    Present(s, if k + 1 < |s| then k + 1 else 0);
  }

  /** A newcomer is given the tracker at the cursor, and the cursor goes on to the next one of those
      there are then; so the next newcomer is given another one. */
  lemma ConnectMovesOn(d: Desk, e: Entry<Addr>)
    requires CursorOk(d) && d.clients != [] && e.id !in Ids(d.clients)
    ensures var (d', peer) := Connected(d, e);
      && peer.Some? && peer.value.id == d.cursor && d'.cursor != d.cursor
      && Ids(d'.clients) == Ids(d.clients) + {e.id} && NextOf(Ids(d'.clients), d.cursor, d'.cursor)
  {
    hide Ascending, Inserted, Around, NextOf;
    ConnectKeeps(d, e);
    InsertedLaws(d.clients, e);
    InsertedIsLonger(d.clients, e);
    var clients := Inserted(d.clients, e);
    AroundIsNext(clients, At(clients, d.cursor));
  }

  /** The cursor stays where it is unless its tracker leaves; then it goes on to the next one. */
  lemma DisconnectMovesOn(d: Desk, id: Key)
    requires CursorOk(d) && d.clients != []
    ensures if id == d.cursor then NextOf(Ids(d.clients), d.cursor, Disconnected(d, id).cursor)
            else Disconnected(d, id).cursor == d.cursor
  {
    hide Ascending, Removed, Around, NextOf;
    AroundIsNext(d.clients, At(d.clients, d.cursor));
  }

  // ---------------------------------------------------------------- whole runs

  datatype Request = Connect(e: Entry<Addr>) | Disconnect(id: Key)

  /** Only new trackers connect, and only connected ones disconnect. */
  ghost predicate Expected(d: Desk, r: Request) {
    match r
    case Connect(e) => e.id !in Ids(d.clients)
    case Disconnect(id) => id in Ids(d.clients)
  }

  ghost function Served(d: Desk, r: Request): (d': Desk)
    requires CursorOk(d) && Expected(d, r)
    ensures CursorOk(d')
    ensures Ids(d'.clients) == if r.Connect? then Ids(d.clients) + {r.e.id} else Ids(d.clients) - {r.id}
  {
    match r
    case Connect(e) =>
      ConnectKeeps(d, e);
      InsertedLaws(d.clients, e);
      Connected(d, e).0
    case Disconnect(id) =>
      DisconnectKeeps(d, id);
      Disconnected(d, id)
  }

  ghost predicate AllExpected(d: Desk, rs: seq<Request>)
    requires CursorOk(d)
    decreases |rs|
  {
    rs == [] || (Expected(d, rs[0]) && AllExpected(Served(d, rs[0]), rs[1..]))
  }

  ghost function ServedAll(d: Desk, rs: seq<Request>): (d': Desk)
    requires CursorOk(d) && AllExpected(d, rs)
    ensures CursorOk(d')
    decreases |rs|
  {
    if rs == [] then d else ServedAll(Served(d, rs[0]), rs[1..])
  }

  /** Who is connected, told from the requests alone. */
  ghost function ConnectedIds(ids: set<Key>, rs: seq<Request>): set<Key>
    decreases |rs|
  {
    if rs == [] then ids
    else ConnectedIds(if rs[0].Connect? then ids + {rs[0].e.id} else ids - {rs[0].id}, rs[1..])
  }

  lemma {:induction false} RunTracks(d: Desk, rs: seq<Request>)
    requires CursorOk(d) && AllExpected(d, rs)
    ensures Ids(ServedAll(d, rs).clients) == ConnectedIds(Ids(d.clients), rs)
    decreases |rs|
  {
    hide Served, CursorOk, Expected, Ids;
    if rs == [] {
    } else {
      RunTracks(Served(d, rs[0]), rs[1..]);
    }
  }

  /** Which requests are expected can be told from the ids alone. */
  lemma {:induction false} ExpectedByIds(d: Desk, rs: seq<Request>)
    requires CursorOk(d)
    ensures AllExpected(d, rs) <==>
      forall i :: 0 <= i < |rs| ==> Fitting(ConnectedIds(Ids(d.clients), rs[..i]), rs[i])
    decreases |rs|
  {
    hide CursorOk, Ids, Served, Fitting;
    var ids := Ids(d.clients);
    if rs == [] {
    } else {
      FittingIsExpected(d, rs[0]);
      assert rs[..0] == [];
      if Expected(d, rs[0]) {
        ExpectedByIds(Served(d, rs[0]), rs[1..]);
        forall i | 1 <= i < |rs|
          ensures ConnectedIds(ids, rs[..i]) == ConnectedIds(Ids(Served(d, rs[0]).clients), rs[1..][..i - 1])
          ensures rs[i] == rs[1..][i - 1]
        {
          assert rs[..i][1..] == rs[1..][..i - 1];
        }
      }
    }
  }

  ghost predicate Fitting(ids: set<Key>, r: Request) {
    if r.Connect? then r.e.id !in ids else r.id in ids
  }

  lemma FittingIsExpected(d: Desk, r: Request)
    ensures Expected(d, r) <==> Fitting(Ids(d.clients), r)
  {
  }

  /** After every run of the server, the next newcomer is given a tracker that has connected, has
      not left and is not itself, and is given none exactly when there is none. */
  lemma NewcomerGetsPeer(rs: seq<Request>, e: Entry<Addr>)
    requires AllExpected(Desk([], 0), rs) && e.id !in ConnectedIds({}, rs)
    ensures match Connected(ServedAll(Desk([], 0), rs), e).1
      case None => ConnectedIds({}, rs) == {}
      case Some(peer) => peer.id in ConnectedIds({}, rs) && peer.id != e.id
  {
    var d := ServedAll(Desk([], 0), rs);
    assert Ids<Addr>([]) == {};
    RunTracks(Desk([], 0), rs);
    ConnectKeeps(d, e);
  }

  /** Some newcomer of the run is given tracker x. */
  ghost predicate HandedOut(d: Desk, rs: seq<Request>, x: Key)
    requires CursorOk(d) && AllExpected(d, rs)
    decreases |rs|
  {
    && rs != []
    && ((rs[0].Connect? && d.clients != [] && Connected(d, rs[0].e).1.Some? && Connected(d, rs[0].e).1.value.id == x)
        || HandedOut(Served(d, rs[0]), rs[1..], x))
  }

  /** A newcomer is given the tracker at the cursor when there is one. */
  lemma HandedOutFirst(d: Desk, rs: seq<Request>, x: Key)
    requires CursorOk(d) && AllExpected(d, rs)
    ensures rs == [] ==> !HandedOut(d, rs, x)
    ensures rs != [] ==>
      (HandedOut(d, rs, x) <==>
        (rs[0].Connect? && d.clients != [] && x == d.cursor) || HandedOut(Served(d, rs[0]), rs[1..], x))
  {
    hide Served, CursorOk, Connected;
    if rs != [] && rs[0].Connect? && d.clients != [] {
      Present(d.clients, 0);
      GivenAtCursor(d, rs[0].e);
    }
  }

  ghost predicate Stays(rs: seq<Request>, t: Key) {
    forall i :: 0 <= i < |rs| ==> rs[i] != Disconnect(t)
  }

  lemma NextStaysBefore(ids: set<Key>, x: Key, t: Key, c: Key, c': Key)
    requires InsideOrEnd(c, x, t) && c != t && x != t && t in ids && NextOf(ids, c, c')
    ensures InsideOrEnd(c', x, t)
  {
    assert Dist(c, c') <= Dist(c, t);
  }

  /** The cursor does not pass a tracker that stays. */
  lemma CursorStaysBefore(d: Desk, r: Request, x: Key, t: Key)
    requires CursorOk(d) && Expected(d, r) && t in Ids(d.clients) && r != Disconnect(t)
    requires x != t && InsideOrEnd(d.cursor, x, t)
    requires r.Connect? ==> d.cursor != t
    ensures t in Ids(Served(d, r).clients) && InsideOrEnd(Served(d, r).cursor, x, t)
  {
    hide Inserted, Removed, Ascending, NextOf, InsideOrEnd, Connected, Disconnected;
    match r
    case Connect(e) =>
      ConnectMovesOn(d, e);
      NextStaysBefore(Ids(d.clients) + {e.id}, x, t, d.cursor, Served(d, r).cursor);
    case Disconnect(id) =>
      DisconnectMovesOn(d, id);
      if id == d.cursor {
        NextStaysBefore(Ids(d.clients), x, t, d.cursor, Served(d, r).cursor);
      }
  }

  /** While the cursor is between x and a tracker t that stays, x is not handed out before t is. */
  lemma {:induction false} NotBefore(d: Desk, rs: seq<Request>, x: Key, t: Key)
    requires CursorOk(d) && AllExpected(d, rs) && t in Ids(d.clients) && Stays(rs, t)
    requires x != t && InsideOrEnd(d.cursor, x, t) && !HandedOut(d, rs, t)
    ensures !HandedOut(d, rs, x)
    decreases |rs|
  {
    hide Served, CursorOk, Expected, Ids, Connected;
    if rs == [] {
    } else {
      var r := rs[0];
      if r.Connect? {
        GivenAtCursor(d, r.e);
      }
      NotItself(d.cursor, x, t);
      CursorStaysBefore(d, r, x, t);
      NotBefore(Served(d, r), rs[1..], x, t);
    }
  }

  lemma NotItself(c: Key, x: Key, t: Key)
    requires InsideOrEnd(c, x, t) && x != t
    ensures c != x
  {
  }

  lemma GivenAtCursor(d: Desk, e: Entry<Addr>)
    requires CursorOk(d) && Expected(d, Connect(e)) && Ids(d.clients) != {}
    ensures d.clients != [] && Connected(d, e).1.Some? && Connected(d, e).1.value.id == d.cursor
  {
    hide Inserted, Ascending, Connected;
    ConnectMovesOn(d, e);
  }

  /** Trackers are handed out in turn: between two newcomers that are given the same tracker x, every
      other tracker that has been there all the time has been given to someone. */
  lemma EveryoneInTurn(d: Desk, e: Entry<Addr>, rs: seq<Request>, t: Key)
    requires CursorOk(d) && AllExpected(d, [Connect(e)] + rs) && Stays(rs, t)
    requires t in Ids(d.clients) && t != d.cursor
    ensures AllExpected(Served(d, Connect(e)), rs)
    ensures HandedOut(Served(d, Connect(e)), rs, d.cursor) ==> HandedOut(Served(d, Connect(e)), rs, t)
  {
    hide Inserted, Ascending, Connected, NextOf;
    var all := [Connect(e)] + rs;
    assert all[0] == Connect(e) && all[1..] == rs;
    ConnectMovesOn(d, e);
    var after := Served(d, Connect(e));
    assert InsideOrEnd(after.cursor, d.cursor, t) by {
      NextIsNearer(Ids(after.clients), d.cursor, after.cursor, t);
    }
    if !HandedOut(after, rs, t) {
      NotBefore(after, rs, d.cursor, t);
    }
  }

  lemma NextIsNearer(ids: set<Key>, x: Key, y: Key, t: Key)
    requires NextOf(ids, x, y) && t in ids
    ensures InsideOrEnd(y, x, t)
  {
  }

  // ---------------------------------------------------------------- the server

  lemma SameIdSamePlace(s: Clients, i: nat, j: nat)
    requires Ascending(s) && i < |s| && j < |s| && s[i].id == s[j].id
    ensures i == j
  {
  }

  class Server {
    const clients: SortedList<Addr>
    var clientRead: Cell?<Addr>
    /** The place of the cursor. */
    ghost var place: nat

    /** With an empty list the cursor is left hanging. */
    ghost predicate Valid()
      reads this, clients, clients.spine
    {
      clients.Valid() && (clients.spine != [] ==> place < |clients.spine| && clientRead == clients.spine[place])
    }

    ghost function View(): Desk
      reads this, clients
    {
      Desk(clients.contents, if place < |clients.contents| then clients.contents[place].id else 0)
    }

    constructor ()
      ensures Valid() && clients.contents == [] && fresh(clients)
    {
      clients := new SortedList<Addr>();
      clientRead := null;
      place := 0;
    }

    lemma ViewIsOk()
      requires Valid()
      ensures CursorOk(View())
      ensures clients.spine != [] ==> At(clients.contents, View().cursor) == place
    {
    }

    /** The cursor goes on, and from the end back to the head. */
    method Advance()
      requires Valid() && clients.spine != []
      modifies this`clientRead, this`place
      ensures Valid() && place == if old(place) + 1 < |clients.spine| then old(place) + 1 else 0
    {
      assert clients.Leads(place + 1) && clients.Leads(0);
      clientRead := clientRead.next;
      place := place + 1;
      if clientRead == null {
        clientRead := clients.head;
        place := 0;
      }
    }

    /** CONNECT_TRACKER */
    method Connect(e: Entry<Addr>) returns (peer: Option<Entry<Addr>>)
      requires Valid()
      modifies this, clients, clients.spine`next
      ensures Valid() && CursorOk(old(View()))
      ensures View() == Connected(old(View()), e).0 && peer == Connected(old(View()), e).1
    {
      hide Inserted, Ascending, Ids, At;
      ViewIsOk();
      ghost var before := View();
      ConnectKeeps(before, e);
      InsertedIsLonger(before.clients, e);
      assert before.clients != [] ==> clients.Shows(place);
      ghost var at := clients.Add(e);
      assert clients.Leads(0) && clients.Leads(1);
      if clients.head.next == null {
        clientRead := clients.head;
        place := 0;
        peer := None;
      } else {
        place := if e.id !in Ids(before.clients) && at <= place then place + 1 else place;
        assert clients.Shows(place);
        assert View() == Desk(Inserted(before.clients, e), before.cursor);
        ViewIsOk();
        peer := Some(Entry(clientRead.id, clientRead.value));
        Advance();
      }
    }

    /** DISCONNECT_TRACKER; someone is connected. */
    method Disconnect(id: Key)
      requires Valid() && clients.head != null
      modifies this, clients, clients.spine`next
      ensures Valid() && CursorOk(old(View())) && old(View()).clients != []
      ensures clients.contents == Disconnected(old(View()), id).clients
      ensures clients.contents != [] ==> View() == Disconnected(old(View()), id)
    {
      hide Removed, Ascending, Ids, At;
      assert clients.Leads(0);
      ViewIsOk();
      assert clients.Shows(place);
      ghost var was := place;
      if clientRead.id == id {
        Advance();
      }
      ghost var now, spine := clients.contents, clients.spine;
      assert clients.Shows(place);
      ghost var at := clients.Remove(id);
      if id in Ids(now) && at == place {
        SameIdSamePlace(now, at, was);
        assert |now| == 1 && clients.contents == [];
      }
      place := if id in Ids(now) && at < place then place - 1 else place;
    }
  }
}

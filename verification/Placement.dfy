/** Where the torrent files live: each at the tracker that owns its id. */
module Placement {
  import opened Circle
  import opened Ring
  import opened RingConvergence
  import opened RingLookup
  import opened SortedSeq
  import opened TorrentFile
  import opened Ownership

  type Store = seq<Entry<File>>

  /** Everything ever published, as one table. */
  type Catalogue = map<Key, File>

  datatype World = World(net: Net, stores: map<Key, Store>)

  // ---------------------------------------------------------------- handing files over

  /** Why a tracker gives files away: a newcomer asks for its arc, the tracker itself leaves, or
      it finds files outside its own arc (lo, self]. */
  datatype Rule =
    | ToNewcomer(self: Key, newcomer: Key)
    | ToSuccessor(succ: Key)
    | ToOwners(net: Net, self: Key, lo: Key)

  ghost predicate Usable(rule: Rule) {
    rule.ToOwners? ==> Ring.WellFormed(rule.net) && rule.self in rule.net
  }

  /** Who is to get the file, if it does not stay. */
  ghost function Dest(rule: Rule, id: Key): Option<Key>
    requires Usable(rule)
  {
    match rule
    case ToNewcomer(self, newcomer) => if InsideOrEnd(id, self, newcomer) then Some(newcomer) else None
    case ToSuccessor(succ) => Some(succ)
    case ToOwners(net, self, lo) => if InsideOrEnd(id, lo, self) then None else Some(FindNext(net, self, id))
  }

  /** The files with this destination, in order. */
  ghost function Select(s: Store, rule: Rule, dest: Option<Key>): Store
    requires Usable(rule)
  {
    if s == [] then []
    else
      var front, last := s[..|s| - 1], s[|s| - 1];
      Select(front, rule, dest) + if Dest(rule, last.id) == dest then [last] else []
  }

  /** All files that do not stay, in order, each with its receiver. */
  ghost function Leaving(s: Store, rule: Rule): seq<(Key, File)>
    requires Usable(rule)
  {
    if s == [] then []
    else
      var front, last := s[..|s| - 1], s[|s| - 1];
      Leaving(front, rule) + if Dest(rule, last.id).Some? then [(Dest(rule, last.id).value, last.value)] else []
  }

  ghost function Values(s: Store): (r: seq<File>)
    ensures |r| == |s| && forall i :: 0 <= i < |r| ==> r[i] == s[i].value
  {
    seq(|s|, i requires 0 <= i < |s| => s[i].value)
  }

  /** The files of all the requests to one receiver, in order. */
  ghost function SentTo(leaving: seq<(Key, File)>, m: Key): seq<File> {
    if leaving == [] then []
    else
      var front, last := leaving[..|leaving| - 1], leaving[|leaving| - 1];
      SentTo(front, m) + if last.0 == m then [last.1] else []
  }

  /** Each receiver is sent exactly its part of the files, in order. */
  lemma {:induction false} SentToIsSelect(s: Store, rule: Rule, m: Key)
    requires Usable(rule)
    ensures SentTo(Leaving(s, rule), m) == Values(Select(s, rule, Some(m)))
  {
    hide Dest;
    if s == [] {
    } else {
      SentToIsSelect(s[..|s| - 1], rule, m);
      var front := Leaving(s[..|s| - 1], rule);
      var leaving := Leaving(s, rule);
      assert leaving != front ==> leaving[..|leaving| - 1] == front;
    }
  }

  /** What one receiver gets is what is sent to it. */
  lemma {:induction false} OnlyReceiver(s: Store, rule: Rule, dest: Key)
    requires Usable(rule)
    requires forall i :: 0 <= i < |s| ==> Dest(rule, s[i].id) in {None, Some(dest)}
    ensures |Leaving(s, rule)| == |Select(s, rule, Some(dest))|
    ensures forall i :: 0 <= i < |Leaving(s, rule)| ==>
      Leaving(s, rule)[i] == (dest, Select(s, rule, Some(dest))[i].value)
  {
    hide Dest;
    if s == [] {
    } else {
      OnlyReceiver(s[..|s| - 1], rule, dest);
    }
  }

  lemma {:induction false} SelectMembers(s: Store, rule: Rule, dest: Option<Key>)
    requires Usable(rule)
    ensures forall e :: e in Select(s, rule, dest) <==> e in s && Dest(rule, e.id) == dest
  {
    hide Dest;
    if s == [] {
    } else {
      assert s == s[..|s| - 1] + [s[|s| - 1]];
      SelectMembers(s[..|s| - 1], rule, dest);
    }
  }

  lemma AscendingSplit(front: Store, last: Entry<File>)
    ensures Ascending(front + [last]) <==> Ascending(front) && forall e :: e in front ==> e.id < last.id
  {
    var s := front + [last];
    if Ascending(s) {
      forall e | e in front ensures e.id < last.id {
        var i :| 0 <= i < |front| && front[i] == e;
        assert s[i].id < s[|front|].id;
      }
      assert forall i :: 0 <= i < |front| ==> front[i] == s[i];
    }
  }

  lemma SelectLaws(s: Store, rule: Rule, dest: Option<Key>)
    requires Usable(rule) && Ascending(s)
    ensures forall e :: e in Select(s, rule, dest) <==> e in s && Dest(rule, e.id) == dest
    ensures Ascending(Select(s, rule, dest))
  {
    SelectMembers(s, rule, dest);
    SelectAscends(s, rule, dest);
  }

  lemma {:induction false} SelectAscends(s: Store, rule: Rule, dest: Option<Key>)
    requires Usable(rule) && Ascending(s)
    ensures Ascending(Select(s, rule, dest))
  {
    hide Dest, Ascending;
    if s == [] {
    } else {
      var front, last := s[..|s| - 1], s[|s| - 1];
      assert s == front + [last];
      AscendingSplit(front, last);
      SelectMembers(front, rule, dest);
      SelectAscends(front, rule, dest);
      AscendingSplit(Select(front, rule, dest), last);
      assert Select(front, rule, dest) + [] == Select(front, rule, dest);
    }
  }

  lemma SelectStep(s: Store, rule: Rule, dest: Option<Key>, done: nat)
    requires Usable(rule) && done < |s|
    ensures Select(s[..done + 1], rule, dest)
         == Select(s[..done], rule, dest) + if Dest(rule, s[done].id) == dest then [s[done]] else []
  {
    assert s[..done + 1][..done] == s[..done];
  }

  lemma LeavingStep(s: Store, rule: Rule, done: nat)
    requires Usable(rule) && done < |s|
    ensures Leaving(s[..done + 1], rule)
      == Leaving(s[..done], rule)
         + if Dest(rule, s[done].id).Some? then [(Dest(rule, s[done].id).value, s[done].value)] else []
  {
    assert s[..done + 1][..done] == s[..done];
  }

  /** The list in the middle of a walk: `done` files have been decided upon. */
  ghost predicate Halfway(s: Store, rule: Rule, done: nat, now: Store)
    requires Usable(rule)
  {
    done <= |s| && now == Select(s[..done], rule, None) + s[done..]
  }

  ghost function Passed(s: Store, rule: Rule, done: nat): nat
    requires Usable(rule) && done <= |s|
  {
    |Select(s[..done], rule, None)|
  }

  lemma WalkStarts(s: Store, rule: Rule)
    requires Usable(rule)
    ensures Halfway(s, rule, 0, s) && Passed(s, rule, 0) == 0 && Leaving(s[..0], rule) == []
  {
  }

  /** What the walk stands at, and what the next step leaves. */
  lemma WalkStep(s: Store, rule: Rule, done: nat, now: Store)
    requires Usable(rule) && Halfway(s, rule, done, now) && done < |s|
    ensures var k := Passed(s, rule, done);
      && k < |now| && now[k] == s[done]
      && (Dest(rule, s[done].id).None? ==> Halfway(s, rule, done + 1, now) && Passed(s, rule, done + 1) == k + 1)
      && (Dest(rule, s[done].id).Some? ==>
            Halfway(s, rule, done + 1, now[..k] + now[k + 1..]) && Passed(s, rule, done + 1) == k)
  {
    hide Dest, Select;
    SelectStep(s, rule, None, done);
    var front := Select(s[..done], rule, None);
    assert now[..|front|] == front && now[|front| + 1..] == s[done + 1..];
    assert now == front + [s[done]] + s[done + 1..];
  }

  lemma WalkEnd(s: Store, rule: Rule, now: Store)
    requires Usable(rule) && Halfway(s, rule, |s|, now)
    ensures now == Select(s, rule, None) && |now| == Passed(s, rule, |s|) && s[..|s|] == s
  {
    assert s[..|s|] == s;
  }

  /** A tracker would have to answer its own request while it holds its own lock. */
  ghost predicate Blocked(w: World, from: Key, rule: Rule)
    requires from in w.stores && Usable(rule)
  {
    Select(w.stores[from], rule, Some(from)) != []
  }

  /** What a receiver makes of files that are sent to it: it saves each before it lists it. */
  ghost function SavedAll(s: Store): (r: Store)
    ensures |r| == |s| && forall i :: 0 <= i < |r| ==> r[i] == Entry(s[i].id, SavedFile(s[i].value))
  {
    seq(|s|, i requires 0 <= i < |s| => Entry(s[i].id, SavedFile(s[i].value)))
  }

  /** `from` sends its files where the rule says; each receiver adds them one by one. */
  ghost function Sweep(w: World, from: Key, rule: Rule): World
    requires from in w.stores && Usable(rule)
  {
    w.(stores := map m | m in w.stores ::
      if m == from then Select(w.stores[from], rule, None)
      else Loaded(w.stores[m], SavedAll(Select(w.stores[from], rule, Some(m)))))
  }

  // ---------------------------------------------------------------- nothing is lost

  /** Every entry is the published one. */
  ghost predicate Agrees(s: Store, cat: Catalogue) {
    Ascending(s) && forall e :: e in s ==> e.id in cat && cat[e.id] == e.value
  }

  /** Every published file has been saved once, so that saving it again changes nothing. */
  ghost predicate AllSaved(cat: Catalogue) {
    forall id :: id in cat ==> SavedFile(cat[id]) == cat[id]
  }

  lemma SavedAlready(s: Store, cat: Catalogue)
    requires AllSaved(cat) && forall e :: e in s ==> e.id in cat && cat[e.id] == e.value
    ensures SavedAll(s) == s
  {
    hide SavedFile;
    forall i | 0 <= i < |s| ensures SavedAll(s)[i] == s[i] {
      assert s[i] in s;
    }
  }

  ghost predicate StoredIn(w: World, e: Entry<File>) {
    exists m :: m in w.stores && e in w.stores[m]
  }

  /** All that was published is stored somewhere, and nothing else is. */
  ghost predicate Spread(w: World, cat: Catalogue) {
    && w.stores.Keys == w.net.Keys && AllSaved(cat)
    && (forall m {:trigger w.stores[m]} :: m in w.stores ==> Agrees(w.stores[m], cat))
    && (forall id :: id in cat ==> StoredIn(w, Entry(id, cat[id])))
  }

  ghost predicate Reachable(w: World, from: Key, rule: Rule)
    requires from in w.stores && Usable(rule)
  {
    forall e :: e in w.stores[from] && Dest(rule, e.id).Some? ==> Dest(rule, e.id).value in w.stores
  }

  /** Exactly who holds what after a sweep. */
  lemma SweepAt(w: World, from: Key, rule: Rule, cat: Catalogue, m: Key)
    requires Spread(w, cat) && from in w.stores && m in w.stores && Usable(rule)
    requires !Blocked(w, from, rule)
    ensures Agrees(Sweep(w, from, rule).stores[m], cat)
    ensures forall e :: e in Sweep(w, from, rule).stores[m] <==>
      (e in w.stores[m] && m != from)
      || (e in w.stores[from] && Dest(rule, e.id) == if m == from then None else Some(m))
  {
    hide Select, Dest, Loaded, Ascending, AllSaved;
    var mine := w.stores[from];
    if m == from {
      SelectLaws(mine, rule, None);
    } else {
      var theirs, sent := w.stores[m], Select(mine, rule, Some(m));
      SelectLaws(mine, rule, Some(m));
      SavedAlready(sent, cat);
      LoadedExact(theirs, sent);
      LoadedAscends(theirs, sent);
    }
  }

  /** Whatever the state of the ring, handing over loses no file and makes up none, as long as
      every request can be answered. */
  lemma SweepConserves(w: World, from: Key, rule: Rule, cat: Catalogue)
    requires Spread(w, cat) && from in w.stores && Usable(rule)
    requires !Blocked(w, from, rule) && Reachable(w, from, rule)
    ensures Spread(Sweep(w, from, rule), cat)
  {
    hide Select, Dest, Loaded, Ascending;
    var w' := Sweep(w, from, rule);
    forall m | m in w'.stores ensures Agrees(w'.stores[m], cat) {
      SweepAt(w, from, rule, cat, m);
    }
    SelectLaws(w.stores[from], rule, Some(from));
    forall id | id in cat ensures StoredIn(w', Entry(id, cat[id])) {
      var e := Entry(id, cat[id]);
      assert StoredIn(w, e);
      var m :| m in w.stores && e in w.stores[m];
      if m == from && Dest(rule, id).Some? {
        SweepAt(w, from, rule, cat, Dest(rule, id).value);
        assert e in w'.stores[Dest(rule, id).value];
      } else {
        SweepAt(w, from, rule, cat, m);
        assert e in w'.stores[m];
      }
    }
  }

  lemma EmptyIffNothing(s: Store)
    ensures s == [] <==> forall e :: e !in s
  {
    if s != [] {
      assert s[0] in s;
    }
  }

  /** Exactly a file whose receiver is the tracker itself blocks it. */
  lemma BlockedByFile(w: World, from: Key, rule: Rule)
    requires from in w.stores && Usable(rule)
    ensures Blocked(w, from, rule) <==> exists e :: e in w.stores[from] && Dest(rule, e.id) == Some(from)
  {
    hide Dest, Select;
    SelectMembers(w.stores[from], rule, Some(from));
    EmptyIffNothing(Select(w.stores[from], rule, Some(from)));
  }

  // ---------------------------------------------------------------- every file at its owner

  /** The store of m is the part of the catalogue that m owns, no more and no less. */
  ghost predicate Keeps(members: set<Key>, cat: Catalogue, m: Key, s: Store) {
    && Ascending(s)
    && forall e :: e in s <==> e.id in cat && cat[e.id] == e.value && IsOwner(members, e.id, m)
  }

  /** An ideal ring in which every tracker keeps just what it owns. Published ids are not ids of
      trackers. */
  ghost predicate Refines(w: World, cat: Catalogue) {
    && Ideal(w.net) && w.stores.Keys == w.net.Keys && cat.Keys !! w.net.Keys && AllSaved(cat)
    && forall m {:trigger w.stores[m]} :: m in w.stores ==> Keeps(w.net.Keys, cat, m, w.stores[m])
  }

  lemma RefinesIsSpread(w: World, cat: Catalogue, some: Key)
    requires Refines(w, cat) && some in w.net
    ensures Spread(w, cat)
  {
    forall id | id in cat ensures StoredIn(w, Entry(id, cat[id])) {
      FindNextIsOwner(w.net, some, id);
      assert Entry(id, cat[id]) in w.stores[FindNext(w.net, some, id)];
    }
    assert forall m :: m in w.stores ==> Keeps(w.net.Keys, cat, m, w.stores[m]);
  }

  // ---------------------------------------------------------------- joining

  /** The newcomer has joined behind s, with no files of its own yet. */
  ghost function Entered(w: World, n: Key, net: Net): World {
    World(net, w.stores[n := []])
  }

  ghost function Arrived(w: World, n: Key, s: Key, net: Net): World
    requires s in w.stores
  {
    Sweep(Entered(w, n, net), s, ToNewcomer(s, n))
  }

  /** What MOVE_DATA takes is what the newcomer owns from now on. */
  lemma MoveDataAt(w: World, cat: Catalogue, n: Key, s: Key, net: Net, m: Key)
    requires Refines(w, cat) && n !in w.net && n !in cat && IsOwner(w.net.Keys, n, s)
    requires net.Keys == w.net.Keys + {n} && m in net
    ensures Keeps(net.Keys, cat, m, Arrived(w, n, s, net).stores[m])
  {
    RefinesIsSpread(w, cat, s);
    assert Keeps(w.net.Keys, cat, s, w.stores[s]);
    assert m != n ==> Keeps(w.net.Keys, cat, m, w.stores[m]);
    SpreadEntered(w, cat, n, net);
    ArrivedAt(Entered(w, n, net), w.net.Keys, cat, n, s, m);
  }

  lemma ArrivedAt(w: World, members: set<Key>, cat: Catalogue, n: Key, s: Key, m: Key)
    requires Spread(w, cat) && n !in members && s in members && IsOwner(members, n, s)
    requires w.net.Keys == members + {n} && m in w.net
    requires Keeps(members, cat, s, w.stores[s])
      && (if m == n then w.stores[m] == [] else Keeps(members, cat, m, w.stores[m]))
    ensures Keeps(members + {n}, cat, m, Sweep(w, s, ToNewcomer(s, n)).stores[m])
  {
    hide Select, Loaded, Ascending, Keeps, InsideOrEnd, IsOwner;
    var rule := ToNewcomer(s, n);
    BlockedByFile(w, s, rule);
    SweepAt(w, s, rule, cat, m);
    KeepsAfterJoin(members, cat, n, s, m, w.stores[s], w.stores[m], Sweep(w, s, rule).stores[m]);
  }

  lemma KeepsAfterJoin(members: set<Key>, cat: Catalogue, n: Key, s: Key, m: Key,
                       given: Store, before: Store, after: Store)
    requires n !in members && s in members && IsOwner(members, n, s) && m in members + {n}
    requires Keeps(members, cat, s, given) && (if m == n then before == [] else Keeps(members, cat, m, before))
    requires m == s ==> before == given
    requires Ascending(after)
    requires forall e :: e in after <==>
      (e in before && m != s)
      || (e in given && (if m == s then !InsideOrEnd(e.id, s, n) else m == n && InsideOrEnd(e.id, s, n)))
    ensures Keeps(members + {n}, cat, m, after)
  {
    hide IsOwner, Ascending, InsideOrEnd;
    forall e ensures e in after <==> e.id in cat && cat[e.id] == e.value && IsOwner(members + {n}, e.id, m) {
      OwnerAfterJoin(members, n, s, e.id, m);
    }
  }

  /** Of what the successor s had, exactly the part between its old predecessor p and the
      newcomer is taken. */
  lemma MoveDataTakesArc(w: World, cat: Catalogue, n: Key, s: Key, p: Key, e: Entry<File>)
    requires Refines(w, cat) && n !in w.net && IsOwner(w.net.Keys, n, s) && p in w.net && IsNext(w.net.Keys, p, s)
    ensures e in Select(w.stores[s], ToNewcomer(s, n), Some(n)) <==> e in w.stores[s] && InsideOrEnd(e.id, p, n)
  {
    hide Select, Ascending;
    SelectMembers(w.stores[s], ToNewcomer(s, n), Some(n));
    assert Keeps(w.net.Keys, cat, s, w.stores[s]);
    OwnerByArc(w.net.Keys, p, s, e.id);
    OwnerByArc(w.net.Keys, p, s, n);
  }

  lemma SpreadEntered(w: World, cat: Catalogue, n: Key, net: Net)
    requires Spread(w, cat) && n !in w.net && net.Keys == w.net.Keys + {n}
    ensures Spread(Entered(w, n, net), cat)
  {
  }

  lemma ArrivedStores(w: World, n: Key, s: Key, net: Net)
    requires s in w.stores
    ensures Arrived(w, n, s, net).stores.Keys == w.stores.Keys + {n} && Arrived(w, n, s, net).net == net
  {
  }

  /** Joining: after MOVE_DATA and once the ring is ideal again, every file is at its new owner. */
  lemma JoinKeeps(w: World, cat: Catalogue, n: Key, s: Key, net: Net, after: Net)
    requires Refines(w, cat) && n !in w.net && n !in cat && IsOwner(w.net.Keys, n, s)
    requires net.Keys == w.net.Keys + {n} == after.Keys && Ideal(after)
    ensures Refines(World(after, Arrived(w, n, s, net).stores), cat)
  {
    hide Arrived, Keeps, Select, Loaded, Dest, AllSaved;
    ArrivedStores(w, n, s, net);
    forall m | m in net ensures Keeps(net.Keys, cat, m, Arrived(w, n, s, net).stores[m]) {
      MoveDataAt(w, cat, n, s, net, m);
    }
  }

  // ---------------------------------------------------------------- leaving

  ghost function Departed(w: World, n: Key): World
    requires Ring.WellFormed(w.net) && n in w.net && n in w.stores
  {
    Sweep(w, n, ToSuccessor(Succ(w.net, n)))
  }

  /** The handover leaves nothing behind and gives the successor what it owns from now on. */
  lemma HandoverAt(w: World, cat: Catalogue, n: Key, m: Key)
    requires Refines(w, cat) && n in w.net && Succ(w.net, n) != n && m in w.net
    ensures m == n ==> Departed(w, n).stores[m] == []
    ensures m != n ==> Keeps(w.net.Keys - {n}, cat, m, Departed(w, n).stores[m])
  {
    hide Loaded, Ascending, IsOwner, Select, IsNext;
    var s := Succ(w.net, n);
    assert IdealAt(w.net, n);
    assert Keeps(w.net.Keys, cat, n, w.stores[n]) && Keeps(w.net.Keys, cat, m, w.stores[m]);
    RefinesIsSpread(w, cat, n);
    BlockedByFile(w, n, ToSuccessor(s));
    SweepAt(w, n, ToSuccessor(s), cat, m);
    if m == n {
      EmptyIffNothing(Departed(w, n).stores[m]);
    } else {
      KeepsAfterLeave(w.net.Keys, cat, n, s, m, w.stores[n], w.stores[m], Departed(w, n).stores[m]);
    }
  }

  lemma KeepsAfterLeave(members: set<Key>, cat: Catalogue, n: Key, s: Key, m: Key,
                       given: Store, before: Store, after: Store)
    requires n in members && s != n && IsNext(members, n, s) && m in members - {n}
    requires Keeps(members, cat, n, given) && Keeps(members, cat, m, before) && Ascending(after)
    requires forall e :: e in after <==> e in before || (e in given && m == s)
    ensures Keeps(members - {n}, cat, m, after)
  {
    hide IsOwner, Ascending, IsNext;
    forall e ensures e in after <==> e.id in cat && cat[e.id] == e.value && IsOwner(members - {n}, e.id, m) {
      OwnerAfterLeave(members, n, s, e.id, m);
    }
  }

  lemma LeaveKeeps(w: World, cat: Catalogue, n: Key, after: Net)
    requires Refines(w, cat) && n in w.net && Succ(w.net, n) != n
    requires Ideal(after) && after.Keys == w.net.Keys - {n}
    ensures Departed(w, n).stores[n] == []
    ensures Refines(World(after, Departed(w, n).stores - {n}), cat)
  {
    HandoverAt(w, cat, n, n);
    forall m | m in after ensures Keeps(after.Keys, cat, m, Departed(w, n).stores[m]) {
      HandoverAt(w, cat, n, m);
    }
  }

  // ---------------------------------------------------------------- uploading and searching

  /** The first file with this id. */
  ghost function Found(s: Store, id: Key): Option<File> {
    if s == [] then None
    else if s[0].id == id then Some(s[0].value)
    else Found(s[1..], id)
  }

  lemma {:induction false} FoundIffStored(s: Store, id: Key, f: File)
    requires Ascending(s)
    ensures Found(s, id) == Some(f) <==> Entry(id, f) in s
  {
    if s == [] {
    } else {
      FoundIffStored(s[1..], id, f);
      assert s == [s[0]] + s[1..];
    }
  }

  /** The tracker n asks the ring for the owner and asks that one for the file. */
  ghost function Query(w: World, n: Key, id: Key): Option<File>
    requires Ring.WellFormed(w.net) && w.stores.Keys == w.net.Keys && n in w.net
  {
    Found(w.stores[FindNext(w.net, n, id)], id)
  }

  /** From every tracker a search answers with the catalogue's file, or with nothing exactly when
      the catalogue has none. */
  lemma QueryFinds(w: World, cat: Catalogue, n: Key, id: Key)
    requires Refines(w, cat) && n in w.net && id !in w.net
    ensures Query(w, n, id) == if id in cat then Some(cat[id]) else None
  {
    var owner := FindNext(w.net, n, id);
    FindNextIsOwner(w.net, n, id);
    var s := w.stores[owner];
    assert Keeps(w.net.Keys, cat, owner, s);
    if id in cat {
      FoundIffStored(s, id, cat[id]);
    } else if Found(s, id).Some? {
      FoundIffStored(s, id, Found(s, id).value);
    }
  }

  /** n publishes f: it goes to the owner, which saves and lists it; a file listed under that id
      already would win. */
  ghost function Published(w: World, n: Key, id: Key, f: File): World
    requires Ring.WellFormed(w.net) && w.stores.Keys == w.net.Keys && n in w.net
  {
    var owner := FindNext(w.net, n, id);
    w.(stores := w.stores[owner := Inserted(w.stores[owner], Entry(id, SavedFile(f)))])
  }

  ghost function Listed(cat: Catalogue, id: Key, f: File): Catalogue {
    if id in cat then cat else cat[id := SavedFile(f)]
  }

  lemma PublishKeeps(w: World, cat: Catalogue, n: Key, id: Key, f: File)
    requires Refines(w, cat) && n in w.net && id !in w.net
    ensures Refines(Published(w, n, id, f), Listed(cat, id, f))
  {
    hide IsOwner, Inserted, Ascending, Saved;
    var owner, cat', w' := FindNext(w.net, n, id), Listed(cat, id, f), Published(w, n, id, f);
    SavedTwice(f.header);
    FindNextIsOwner(w.net, n, id);
    forall m | m in w.stores ensures Keeps(w.net.Keys, cat', m, w'.stores[m]) {
      assert Keeps(w.net.Keys, cat, m, w.stores[m]);
      if m == owner {
        InsertedLaws(w.stores[m], Entry(id, SavedFile(f)));
        ListedOnce(w.net.Keys, cat, m, w.stores[m], id);
      } else if IsOwner(w.net.Keys, id, m) {
        OwnerIsUnique(w.net.Keys, id, m, owner);
      }
    }
  }

  lemma ListedOnce(members: set<Key>, cat: Catalogue, m: Key, s: Store, id: Key)
    requires Keeps(members, cat, m, s) && IsOwner(members, id, m)
    ensures id in Ids(s) <==> id in cat
  {
    if id in cat {
      assert Entry(id, cat[id]) in s;
    }
  }
}

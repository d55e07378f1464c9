/** The tracker's handlers and loops over its list of torrent files, on the heap. */
module Tracker {
  import opened Circle
  import opened KeyBytes
  import opened Ring
  import opened SortedSeq
  import opened LinkedList
  import opened TorrentFile
  import opened Placement
  import opened Swarm
  import Dht

  ghost predicate FiledStore(s: Store) {
    Ascending(s) && forall i :: 0 <= i < |s| ==> Filed(s[i].id, s[i].value)
  }

  lemma NothingFound(id: Key, peer: Entry<Bytes>)
    ensures Found([], id) == None && PeerAdded([], id, peer) == []
  {
  }

  lemma {:induction false} FoundIffListed(s: Store, id: Key)
    ensures Found(s, id).Some? <==> id in Ids(s)
  {
    if s == [] {
    } else {
      FoundIffListed(s[1..], id);
      IdsSplit(s);
    }
  }

  /** The file with this id has the peer from now on, unless it had one with that id; nothing else
      in the list changes. */
  lemma PeerAddedGains(s: Store, id: Key, peer: Entry<Bytes>)
    requires FiledStore(s)
    ensures var t := PeerAdded(s, id, peer);
      && |t| == |s|
      && forall i :: 0 <= i < |s| ==>
        && t[i].id == s[i].id && (s[i].id != id ==> t[i] == s[i])
        && t[i].value.header == s[i].value.header && Ascending(t[i].value.peers)
        && forall x :: x in t[i].value.peers <==>
          x in s[i].value.peers || (s[i].id == id && x == peer && peer.id !in Ids(s[i].value.peers))
  {
    hide WithPeer, PeerAdded;
    PeerAddedAt(s, id, peer);
    forall i | 0 <= i < |s| ensures Ascending(s[i].value.peers) {
      assert Filed(s[i].id, s[i].value);
    }
    forall i | 0 <= i < |s| && s[i].id == id {
      WithPeerLaws(s[i].value, peer);
    }
  }

  /** One step of a walk in search of an id. */
  lemma WalkOn(s: Store, id: Key, peer: Entry<Bytes>, k: nat)
    requires k < |s| && s[k].id != id
    ensures Found(s[k..], id) == Found(s[k + 1..], id)
    ensures PeerAdded(s, id, peer) == s[..k] + PeerAdded(s[k..], id, peer)
        ==> PeerAdded(s, id, peer) == s[..k + 1] + PeerAdded(s[k + 1..], id, peer)
  {
  }

  lemma WalkEnds(s: Store, id: Key, peer: Entry<Bytes>, k: nat)
    requires k < |s| && s[k].id == id
    ensures Found(s[k..], id) == Some(s[k].value)
    ensures PeerAdded(s, id, peer) == s[..k] + PeerAdded(s[k..], id, peer)
        ==> PeerAdded(s, id, peer) == s[k := Entry(id, WithPeer(s[k].value, peer))]
  {
  }

  /** The files of requests to any receivers. */
  ghost function Given(requests: seq<(Key, File)>): (r: seq<File>)
    ensures |r| == |requests| && forall i :: 0 <= i < |r| ==> r[i] == requests[i].1
  {
    seq(|requests|, i requires 0 <= i < |requests| => requests[i].1)
  }

  lemma OneMoreGiven(requests: seq<(Key, File)>, r: (Key, File))
    ensures Messages(Given(requests + [r])) == Messages(Given(requests)) + [Serialized(r.1)]
    ensures requests + [] == requests
  {
  }

  lemma PeerAddedStaysFiled(s: Store, id: Key, peer: Entry<Bytes>)
    requires FiledStore(s) && IsPeer(peer)
    ensures FiledStore(PeerAdded(s, id, peer))
  {
    hide Filed, WithPeer, PeerAdded;
    PeerAddedAt(s, id, peer);
    var r := PeerAdded(s, id, peer);
    forall i | 0 <= i < |r| ensures Filed(r[i].id, r[i].value) {
      SharedIsFiled(s[i].id, s[i].value, peer);
    }
  }

  lemma InsertedStaysFiled(s: Store, e: Entry<File>)
    requires FiledStore(s) && Filed(e.id, e.value)
    ensures FiledStore(Inserted(s, e))
  {
    hide Filed, Inserted, Ascending;
    InsertedLaws(s, e);
    var r := Inserted(s, e);
    forall i | 0 <= i < |r| ensures Filed(r[i].id, r[i].value) {
      assert r[i] in r;
    }
  }

  lemma MessageOf(sent: Store, i: nat)
    requires FiledStore(sent) && i < |sent|
    ensures var msg := Stream(Values(sent))[i];
      && !IsTerminator(msg) && Complete(msg) && Deserialized(msg) == sent[i].value
      && Storable(sent[i].value) && SavedFile(sent[i].value) == sent[i].value && IdOf(sent[i].value) == sent[i].id
  {
    assert Filed(sent[i].id, sent[i].value);
    OneMessage(sent[i].value);
  }

  class Tracker {
    const id: Key
    const files: SortedList<File>

    ghost predicate Valid()
      reads files, files.spine
    {
      files.Valid() && FiledStore(files.contents)
    }

    constructor (id: Key)
      ensures Valid() && this.id == id && files.contents == []
      ensures fresh(files) && files.spine == []
    {
      this.id := id;
      files := new SortedList<File>();
    }

    // -------------------------------------------------------------- single requests

    /** SEARCH: the file in serialized form, or nothing. */
    method Search(id: Key) returns (res: Option<Bytes>)
      requires Valid()
      ensures res == match Found(files.contents, id) case Some(f) => Some(Serialized(f)) case None => None
      ensures res.None? <==> id !in Ids(files.contents)
      ensures forall f :: Entry(id, f) in files.contents ==> res == Some(Serialized(f))
    {
      hide FiledStore, Ascending, Ids, Serialized;
      FoundIffListed(files.contents, id);
      forall f | Entry(id, f) in files.contents ensures Found(files.contents, id) == Some(f) {
        FoundIffStored(files.contents, id, f);
      }
      var p := files.head;
      ghost var k := 0;
      assert files.Leads(0) && files.contents[0..] == files.contents;
      while p != null
        invariant k <= |files.spine| && p == if k < |files.spine| then files.spine[k] else null
        invariant Found(files.contents, id) == Found(files.contents[k..], id)
        decreases |files.spine| - k
      {
        assert files.Shows(k) && files.Leads(k + 1);
        if p.id == id {
          return Some(Serialized(p.value));
        }
        p := p.next;
        k := k + 1;
      }
      return None;
    }

    /** ADD_PEER changes the one file it finds, in place. */
    method AddPeer(id: Key, peer: Entry<Bytes>) returns (found: bool)
      requires Valid() && IsPeer(peer)
      modifies files`contents, files.spine`value
      ensures Valid() && files.contents == PeerAdded(old(files.contents), id, peer)
      ensures |files.contents| == |old(files.contents)|
      ensures forall i :: 0 <= i < |files.contents| ==>
        var was, now := old(files.contents)[i], files.contents[i];
        && now.id == was.id && now.value.header == was.value.header && (was.id != id ==> now == was)
        && forall x :: x in now.value.peers <==>
          x in was.value.peers || (was.id == id && x == peer && peer.id !in Ids(was.value.peers))
      ensures found <==> id in Ids(old(files.contents))
    {
      hide FiledStore, Ascending, WithPeer, Found, PeerAdded, IsPeer, Ids;
      var p := files.head;
      ghost var k, s := 0, files.contents;
      NothingFound(id, peer);
      PeerAddedGains(s, id, peer);
      FoundIffListed(s, id);
      assert files.Leads(0) && s[0..] == s && s[|s|..] == [];
      while p != null
        invariant k <= |files.spine| && p == if k < |files.spine| then files.spine[k] else null
        invariant Valid() && files.contents == s
        invariant Found(s, id) == Found(s[k..], id)
        invariant PeerAdded(s, id, peer) == s[..k] + PeerAdded(s[k..], id, peer)
        decreases |files.spine| - k
      {
        assert files.Shows(k) && files.Leads(k + 1);
        if p.id == id {
          break;
        }
        WalkOn(s, id, peer, k);
        p := p.next;
        k := k + 1;
      }
      found := p != null;
      if found {
        assert files.Shows(k);
        WalkEnds(s, id, peer, k);
        PeerAddedStaysFiled(s, id, peer);
        files.SetValue(p, WithPeer(p.value, peer), k);
      }
    }

    // -------------------------------------------------------------- receiving files

    /** file_list_add lists a copy made by serializing and deserializing. */
    method AddFile(f: File)
      requires files.Valid() && TorrentFile.WellFormed(f)
      modifies files, files.spine`next
      ensures files.Valid() && files.contents == Inserted(old(files.contents), Entry(IdOf(f), TorrentFile.Stored(f)))
      ensures forall i :: 0 <= i < |files.spine| ==> files.spine[i] in old(files.spine) || fresh(files.spine[i])
    {
      hide Inserted, Ascending, Serialized, Deserialized;
      RoundTrip(f);
      var copy := Deserialized(Serialized(f));
      var place := files.Add(Entry(IdOf(copy), copy));
    }

    /** Saves a file that has arrived and lists it. */
    method SaveAndAdd(f: File)
      requires Valid() && Storable(f)
      modifies files, files.spine`next
      ensures Valid() && files.contents == Inserted(old(files.contents), Entry(IdOf(f), SavedFile(f)))
      ensures forall i :: 0 <= i < |files.spine| ==> files.spine[i] in old(files.spine) || fresh(files.spine[i])
    {
      hide Inserted, Ascending, IdOf, Filed, Saved, IsPeer;
      SavedKeepsId(f);
      SavedIsFiled(IdOf(f), f);
      StoredIsStorable(SavedFile(f));
      InsertedStaysFiled(files.contents, Entry(IdOf(f), SavedFile(f)));
      AddFile(SavedFile(f));
    }

    /** UPLOAD */
    method Upload(msg: Bytes)
      requires Valid() && Complete(msg)
      modifies files, files.spine`next
      ensures Valid()
      ensures files.contents
           == Inserted(old(files.contents), Entry(IdOf(Deserialized(msg)), SavedFile(Deserialized(msg))))
      ensures forall i :: 0 <= i < |files.spine| ==> files.spine[i] in old(files.spine) || fresh(files.spine[i])
    {
      hide Deserialized, Inserted, FiledStore, Ascending, SavedFile;
      DeserializedIsStorable(msg);
      SaveAndAdd(Deserialized(msg));
    }

    /** The newcomer reads files until it meets the terminator. */
    method Receive(stream: seq<Bytes>, ghost sent: Store)
      requires Valid() && FiledStore(sent) && stream == Stream(Values(sent))
      modifies files, files.spine`next
      ensures Valid() && files.contents == Loaded(old(files.contents), sent)
      ensures forall i :: 0 <= i < |files.spine| ==> files.spine[i] in old(files.spine) || fresh(files.spine[i])
    {
      hide Loaded, Inserted, FiledStore, Ascending, Storable, SavedFile;
      hide Deserialized, Serialized, IsTerminator, Complete, IdOf;
      var i := 0;
      LoadedNone(files.contents);
      assert sent[..0] == [] && stream[|sent|] == Terminator();
      while !IsTerminator(stream[i])
        invariant 0 <= i <= |sent| && stream[|sent|] == Terminator()
        invariant Valid() && files.contents == Loaded(old(files.contents), sent[..i])
        invariant forall i :: 0 <= i < |files.spine| ==> files.spine[i] in old(files.spine) || fresh(files.spine[i])
        decreases |sent| - i
      {
        MessageOf(sent, i);
        LoadedOneMore(old(files.contents), sent[..i], sent[i]);
        assert sent[..i + 1] == sent[..i] + [sent[i]];
        var f := Deserialized(stream[i]);
        SaveAndAdd(f);
        i := i + 1;
      }
      if i < |sent| {
        MessageOf(sent, i);
      }
      assert sent[..i] == sent;
    }

    // -------------------------------------------------------------- giving files away

    /** A walk with decisions about `done` files taken stands at p. */
    ghost predicate At(s: Store, rule: Rule, done: nat, p: Cell?<File>)
      requires Usable(rule)
      reads files, files.spine
    {
      && Valid() && FiledStore(s) && Halfway(s, rule, done, files.contents)
      && var k := Passed(s, rule, done); p == if k < |files.spine| then files.spine[k] else null
    }

    lemma WalkAt(s: Store, rule: Rule, done: nat, p: Cell?<File>)
      requires Usable(rule) && At(s, rule, done, p)
      ensures done <= |s| && (p == null <==> done == |s|)
      ensures p != null ==>
        s[done] == Entry(p.id, p.value) && Passed(s, rule, done) < |files.spine| && Filed(p.id, p.value)
      ensures p != null && Dest(rule, p.id).None? ==> At(s, rule, done + 1, p.next)
    {
      hide Dest, Select, Filed, Ascending;
      if done < |s| {
        var k := Passed(s, rule, done);
        WalkStep(s, rule, done, files.contents);
        assert files.Shows(k) && files.Leads(k + 1);
      } else {
        WalkEnd(s, rule, files.contents);
      }
    }

    /** The file has been sent: its cell goes, and the walk goes on behind it. */
    method Drop(p: Cell<File>, ghost rule: Rule, ghost s: Store, ghost done: nat) returns (next: Cell?<File>)
      requires Usable(rule) && At(s, rule, done, p) && Dest(rule, p.id).Some?
      modifies files, files.spine`next
      ensures At(s, rule, done + 1, next)
      ensures forall i :: 0 <= i < |files.spine| ==> files.spine[i] in old(files.spine)
    {
      hide Dest, Select, Filed, Ascending;
      WalkAt(s, rule, done, p);
      WalkStep(s, rule, done, files.contents);
      ghost var k, before := Passed(s, rule, done), files.contents;
      next := files.RemoveAndGoOn(p, k);
      assert FiledStore(files.contents) by {
        assert forall i :: 0 <= i < |files.contents| ==> files.contents[i] == before[if i < k then i else i + 1];
      }
    }

    /** MOVE_DATA: the newcomer gets its arc, file by file, and then the terminator. */
    method MoveData(newcomer: Key) returns (stream: seq<Bytes>)
      requires Valid() && newcomer != id
      modifies files, files.spine`next
      ensures Valid() && files.contents == Select(old(files.contents), ToNewcomer(id, newcomer), None)
      ensures stream == Stream(Values(Select(old(files.contents), ToNewcomer(id, newcomer), Some(newcomer))))
      ensures forall i :: 0 <= i < |files.spine| ==> files.spine[i] in old(files.spine)
    {
      hide Select, Leaving, Filed, Ascending, Serialized, Halfway, InsideOrEnd;
      ghost var rule := ToNewcomer(id, newcomer);
      ghost var s, done := files.contents, 0;
      var sent: seq<Bytes> := [];
      var p := files.head;
      WalkStarts(s, rule);
      assert files.Leads(0);
      while p != null
        invariant At(s, rule, done, p) && done <= |s|
        invariant sent == Messages(Given(Leaving(s[..done], rule)))
        invariant forall i :: 0 <= i < |files.spine| ==> files.spine[i] in old(files.spine)
        decreases |s| - done
      {
        WalkAt(s, rule, done, p);
        LeavingStep(s, rule, done);
        OneMoreGiven(Leaving(s[..done], rule), (newcomer, p.value));
        if InsideOrEnd(p.id, id, newcomer) {
          sent := sent + [Serialized(p.value)];
          p := Drop(p, rule, s, done);
        } else {
          p := p.next;
        }
        done := done + 1;
      }
      stream := sent + [Terminator()];
      WalkAt(s, rule, done, p);
      WalkEnd(s, rule, files.contents);
      OnlyReceiver(s, rule, newcomer);
    }

    /** The loop of tracker_stabilize: every file outside the tracker's own arc goes to the owner
        the ring names. Returns the UPLOAD requests in the order in which they are made. A request
        to itself is never answered: then the loop stays where it is, with the lock. */
    method Redistribute(network: Dht.Network, prev: Key) returns (requests: seq<(Key, Bytes)>, blocked: bool)
      requires Valid() && network.Valid() && id in network.nodes
      requires files !in network.Repr && forall i :: 0 <= i < |files.spine| ==> files.spine[i] !in network.Repr
      modifies files, files.spine`next
      ensures Valid()
      ensures blocked <==> ToItself(old(files.contents), ToOwners(network.net, id, prev), id)
      ensures !blocked ==>
        && files.contents == Select(old(files.contents), ToOwners(network.net, id, prev), None)
        && requests == Requests(Leaving(old(files.contents), ToOwners(network.net, id, prev)))
      ensures blocked ==> exists i ::
        StuckAt(old(files.contents), ToOwners(network.net, id, prev), id, i, files.contents, requests)
    {
      hide Select, Leaving, Filed, Ascending, Serialized, Halfway, Dest;
      hide InsideOrEnd, Ring.WellFormed, WellFormedAt, FindNext, Dht.Network.Valid;
      ghost var rule := ToOwners(network.net, id, prev);
      ghost var s, done := files.contents, 0;
      requests, blocked := [], false;
      var p := files.head;
      NetworkIsWellFormed(network);
      WalkStarts(s, rule);
      assert files.Leads(0);
      while p != null
        invariant At(s, rule, done, p) && done <= |s|
        invariant requests == Requests(Leaving(s[..done], rule))
        invariant network.Valid() && id in network.nodes && network.net == rule.net && network.Repr == old(network.Repr)
        invariant forall i :: 0 <= i < |files.spine| ==> files.spine[i] in old(files.spine)
        invariant forall i :: 0 <= i < done ==> Dest(rule, s[i].id) != Some(id)
        decreases |s| - done
      {
        WalkAt(s, rule, done, p);
        LeavingStep(s, rule, done);
        if !InsideOrEnd(p.id, prev, id) {
          var peer := network.FindNext(id, p.id);
          SentAway(network.net, id, prev, p.id, peer);
          if peer == id {
            blocked := true;
            assert At(s, rule, done, p);
            assert StuckAt(s, rule, id, done, files.contents, requests);
            return;
          }
          OneMoreRequest(Leaving(s[..done], rule), (peer, p.value));
          requests := requests + [(peer, Serialized(p.value))];
          p := Drop(p, rule, s, done);
        } else {
          StaysHere(network.net, id, prev, p.id);
          OneMoreRequest(Leaving(s[..done], rule), (id, p.value));
          p := p.next;
        }
        done := done + 1;
      }
      WalkAt(s, rule, done, p);
      WalkEnd(s, rule, files.contents);
    }

    /** The handover of tracker_cleanup: the head goes to the successor until none is left. */
    method HandOver(succ: Tracker)
      requires Valid() && succ.Valid() && succ.files != files
        && (forall i :: 0 <= i < |files.spine| ==> files.spine[i] !in succ.files.spine)
      modifies files, files.spine`next, succ.files, succ.files.spine`next
      ensures Valid() && files.contents == []
      ensures succ.Valid() && succ.files.contents == Loaded(old(succ.files.contents), old(files.contents))
    {
      hide Select, Filed, Ascending, Loaded, Inserted, Serialized, Deserialized, IdOf, Complete, SavedFile;
      ghost var s, t, done := files.contents, succ.files.contents, 0;
      LoadedNone(t);
      assert files.Leads(0) && s[0..] == s && s[..0] == [];
      while files.head != null
        invariant Valid() && succ.Valid() && files.Leads(0)
        invariant done <= |s| && files.contents == s[done..]
        invariant succ.files.contents == Loaded(t, s[..done])
        invariant forall i :: 0 <= i < |files.spine| ==> files.spine[i] in old(files.spine)
        invariant forall i :: 0 <= i < |succ.files.spine| ==>
          succ.files.spine[i] in old(succ.files.spine) || fresh(succ.files.spine[i])
        decreases |s| - done
      {
        assert files.Shows(0);
        assert s[done] == Entry(files.head.id, files.head.value);
        FiledMessage(s, done);
        LoadedOneMore(t, s[..done], s[done]);
        assert s[..done + 1] == s[..done] + [s[done]];
        succ.Upload(Serialized(files.head.value));
        var _ := files.RemoveAndGoOn(files.head, 0);
        done := done + 1;
        assert files.Leads(0);
      }
      assert s[..done] == s;
    }
  }

  lemma NetworkIsWellFormed(network: Dht.Network)
    requires network.Valid()
    ensures Ring.WellFormed(network.net) && network.net.Keys == network.nodes.Keys
  {
  }

  lemma LoadedNone(s: Store)
    ensures Loaded(s, []) == s
  {
  }

  lemma FiledMessage(s: Store, k: nat)
    requires FiledStore(s) && k < |s|
    ensures var msg := Serialized(s[k].value);
      && Complete(msg) && Deserialized(msg) == s[k].value
      && IdOf(s[k].value) == s[k].id && SavedFile(s[k].value) == s[k].value
    ensures FiledStore(s[k..]) && FiledStore(s[k + 1..])
  {
    assert Filed(s[k].id, s[k].value);
    OneMessage(s[k].value);
  }

  /** The walk over the list s waits at file i, which would go to the tracker itself; everything
      before it is decided. */
  ghost predicate StuckAt(s: Store, rule: Rule, id: Key, i: int, now: Store, requests: seq<(Key, Bytes)>)
    requires Usable(rule)
  {
    && 0 <= i < |s| && Dest(rule, s[i].id) == Some(id) && Halfway(s, rule, i, now)
    && (forall j :: 0 <= j < i ==> Dest(rule, s[j].id) != Some(id))
    && requests == Requests(Leaving(s[..i], rule))
  }

  ghost predicate ToItself(s: Store, rule: Rule, id: Key)
    requires Usable(rule)
  {
    exists i :: 0 <= i < |s| && Dest(rule, s[i].id) == Some(id)
  }

  lemma SentAway(net: Net, self: Key, lo: Key, id: Key, peer: Key)
    requires Ring.WellFormed(net) && self in net && !InsideOrEnd(id, lo, self) && peer == FindNext(net, self, id)
    ensures Dest(ToOwners(net, self, lo), id) == Some(peer)
  {
  }

  lemma StaysHere(net: Net, self: Key, lo: Key, id: Key)
    requires Ring.WellFormed(net) && self in net && InsideOrEnd(id, lo, self)
    ensures Dest(ToOwners(net, self, lo), id) == None
  {
  }

  ghost function Requests(leaving: seq<(Key, File)>): (r: seq<(Key, Bytes)>)
    ensures |r| == |leaving| && forall i :: 0 <= i < |r| ==> r[i] == (leaving[i].0, Serialized(leaving[i].1))
  {
    seq(|leaving|, i requires 0 <= i < |leaving| => (leaving[i].0, Serialized(leaving[i].1)))
  }

  lemma OneMoreRequest(leaving: seq<(Key, File)>, r: (Key, File))
    ensures Requests(leaving + [r]) == Requests(leaving) + [(r.0, Serialized(r.1))]
    ensures leaving + [] == leaving
  {
  }

  /** A newcomer fetches its files from its successor over one stream. */
  method FetchFiles(newcomer: Tracker, succ: Tracker)
    requires newcomer.Valid() && succ.Valid() && newcomer.id != succ.id
    requires newcomer.files != succ.files
      && (forall i :: 0 <= i < |newcomer.files.spine| ==> newcomer.files.spine[i] !in succ.files.spine)
    modifies newcomer.files, newcomer.files.spine`next, succ.files, succ.files.spine`next
    ensures newcomer.Valid() && succ.Valid()
    ensures var rule, before := ToNewcomer(succ.id, newcomer.id), old(succ.files.contents);
      && succ.files.contents == Select(before, rule, None)
      && newcomer.files.contents == Loaded(old(newcomer.files.contents), Select(before, rule, Some(newcomer.id)))
  {
    hide Select, Filed, Ascending, Loaded;
    ghost var rule, before := ToNewcomer(succ.id, newcomer.id), succ.files.contents;
    SelectStaysFiled(before, rule, Some(newcomer.id));
    var stream := succ.MoveData(newcomer.id);
    newcomer.Receive(stream, Select(before, rule, Some(newcomer.id)));
  }

  lemma SelectStaysFiled(s: Store, rule: Rule, dest: Option<Key>)
    requires FiledStore(s) && Usable(rule)
    ensures FiledStore(Select(s, rule, dest))
  {
    hide Filed, Ascending, Select, Dest;
    SelectLaws(s, rule, dest);
    var r := Select(s, rule, dest);
    forall i | 0 <= i < |r| ensures Filed(r[i].id, r[i].value) {
      assert r[i] in r;
    }
  }
}

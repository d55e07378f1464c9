/** The DHT operations as the nodes run them, each proved to do what Ring says. */
module Dht {
  import opened Circle
  import opened Ring
  import opened RingLookup
  import opened RingInvariant
  import opened RingTurns
  import opened RingEffects

  datatype Finger = Finger(initialized: bool, start: Key, node: Key)

  ghost function Entry(f: Finger): Option<Key> {
    if f.initialized then Some(f.node) else None
  }

  ghost function Entries(table: seq<Finger>): (r: seq<Option<Key>>)
    ensures |r| == |table| && forall i :: 0 <= i < |r| ==> r[i] == Entry(table[i])
  {
    seq(|table|, i requires 0 <= i < |table| => Entry(table[i]))
  }

  /** One member's own state. */
  class Node {
    const id: Key
    const finger: array<Finger>
    var prevInitialized: bool
    var prev: Key

    constructor (id: Key)
      ensures this.id == id && fresh(finger) && finger.Length == KEY_BITS
    {
      this.id := id;
      finger := new Finger[KEY_BITS](i => Finger(false, 0, 0));
      prevInitialized := false;
      prev := 0;
    }

    /** The node has a successor. */
    ghost predicate Ready()
      reads this, finger
    {
      finger.Length == KEY_BITS && finger[0].initialized
    }

    ghost function View(): Peer
      requires finger.Length == KEY_BITS
      reads this, finger
    {
      Peer(finger[0].node, if prevInitialized then Some(prev) else None, Entries(finger[1..]))
    }

    /** finger[i] now points at target. */
    method SetEntry(i: nat, target: Key)
      requires finger.Length == KEY_BITS && i < KEY_BITS
      modifies finger
      ensures finger[0].initialized == (i == 0 || old(finger[0].initialized))
      ensures i == 0 ==> View() == old(View()).(succ := target)
      ensures i > 0 ==> View() == old(View()).(finger := old(View()).finger[i - 1 := Some(target)])
      ensures forall j :: 0 <= j < KEY_BITS ==> finger[j].start == old(finger[j].start)
    {
      finger[i] := finger[i].(initialized := true, node := target);
      assert i == 0 ==> Entries(finger[1..]) == old(Entries(finger[1..]));
      assert i > 0 ==> Entries(finger[1..]) == old(Entries(finger[1..]))[i - 1 := Some(target)];
    }

    /** No finger and no predecessor is known; `starts` are the points the fingers stand for. */
    method Reset(starts: seq<Key>)
      requires finger.Length == KEY_BITS == |starts|
      modifies this, finger
      ensures View().prev == None && View().finger == NoFingers() && !finger[0].initialized
      ensures forall j :: 0 <= j < KEY_BITS ==> finger[j].start == starts[j]
    {
      var i := 0;
      while i < KEY_BITS
        invariant 0 <= i <= KEY_BITS
        invariant forall j :: 0 <= j < i ==> !finger[j].initialized && finger[j].start == starts[j]
      {
        finger[i] := finger[i].(initialized := false, start := starts[i]);
        i := i + 1;
      }
      prevInitialized := false;
      assert Entries(finger[1..]) == NoFingers();
    }

    /** Asks every pointer for a sign of life; the nodes in `gone` give none. A lost successor is
        replaced by the first finger that answers, or else by the predecessor. The replacement is
        returned, to be told; a node that finds none stops. */
    method DropDead(gone: set<Key>) returns (found: Option<Key>, stops: bool)
      requires Ready()
      modifies this, finger
      ensures stops == Stranded(old(View()), gone)
      ensures !stops ==> Ready() && View() == Cleaned(old(View()), gone)
      ensures found == if old(View()).succ in gone then Spare(old(View()), gone) else None
      ensures found.Some? ==> Replaces(old(View()), gone, found.value)
      ensures forall j :: 0 <= j < KEY_BITS ==> finger[j].start == old(finger[j].start)
    {
      hide Replaces;
      SpareExactly(View(), gone);
      ghost var before := View();
      found := DropDeadFingers(gone);
      if prevInitialized {
        if prev in gone {
          prevInitialized := false;
        } else if !finger[0].initialized {
          finger[0] := finger[0].(initialized := true, node := prev);
          found := Some(prev);
        }
      }
      stops := !finger[0].initialized;
      assert Entries(finger[1..]) == AllForgotten(before.finger, gone);
    }

    method DropDeadFingers(gone: set<Key>) returns (found: Option<Key>)
      requires Ready()
      modifies finger
      ensures found == if old(finger[0].node) in gone then FirstAlive(old(View()).finger, gone, 0) else None
      ensures old(finger[0].node) !in gone ==> finger[0] == old(finger[0])
      ensures old(finger[0].node) in gone ==>
        finger[0].initialized == found.Some? && (found.Some? ==> finger[0].node == found.value)
      ensures forall j :: 1 <= j < KEY_BITS ==> Entry(finger[j]) == Forgotten(old(Entry(finger[j])), gone)
      ensures forall j :: 0 <= j < KEY_BITS ==> finger[j].start == old(finger[j].start)
    {
      ghost var entries := View().finger;
      ghost var lost := finger[0].node in gone;
      found := None;
      if finger[0].node in gone {
        finger[0] := finger[0].(initialized := false);
      }
      var i := 1;
      while i < KEY_BITS
        invariant 1 <= i <= KEY_BITS
        invariant forall j :: 0 <= j < KEY_BITS ==> finger[j].start == old(finger[j].start)
        invariant forall j :: i <= j < KEY_BITS ==> finger[j] == old(finger[j])
        invariant forall j :: 1 <= j < i ==> Entry(finger[j]) == Forgotten(old(Entry(finger[j])), gone)
        invariant !lost ==> finger[0] == old(finger[0]) && found == None
        invariant lost ==>
          finger[0].initialized == found.Some? && (found.Some? ==> finger[0].node == found.value)
        invariant lost && found.Some? ==> FirstAlive(entries, gone, 0) == found
        invariant lost && found.None? ==> FirstAlive(entries, gone, 0) == FirstAlive(entries, gone, i - 1)
      {
        assert entries[i - 1] == Entry(finger[i]);
        if finger[i].initialized {
          if finger[i].node in gone {
            finger[i] := finger[i].(initialized := false);
          } else if !finger[0].initialized {
            finger[0] := finger[0].(initialized := true, node := finger[i].node);
            found := Some(finger[i].node);
          }
        }
        i := i + 1;
      }
    }

    /** The closest initialized finger preceding id. */
    method FindClosestPreceding(id: Key) returns (res: Option<Key>)
      requires Ready()
      ensures res == ScanPeer(View(), this.id, id)
    {
      var i := KEY_BITS - 1;
      while i >= 0
        invariant -1 <= i < KEY_BITS
        invariant i >= 0 ==> ScanPeer(View(), this.id, id) == ScanBelow(View(), this.id, id, i)
        invariant i < 0 ==> ScanPeer(View(), this.id, id) == None
      {
        if finger[i].initialized && Inside(finger[i].node, this.id, id) {
          return Some(finger[i].node);
        }
        i := i - 1;
      }
      return None;
    }
  }

  ghost function PrevForgotten(net: Net, n: Key): Net
    requires n in net
  {
    net[n := net[n].(prev := None)]
  }

  lemma ForgettingKeepsForm(net: Net, n: Key)
    requires WellFormed(net) && n in net
    ensures WellFormed(PrevForgotten(net, n)) && PrevForgotten(net, n).Keys == net.Keys
  {
    forall k | k in net ensures WellFormedAt(PrevForgotten(net, n), k) {
      assert WellFormedAt(net, k);
    }
  }

  /** What a stabilization that fails leaves behind. */
  ghost function Adopting(net: Net, n: Key, gone: set<Key>): Net
    requires WellFormed(net) && n in net
  {
    var s := Succ(net, n);
    if s !in gone && net[s].prev.Some? && Inside(net[s].prev.value, n, s)
    then SetSucc(net, n, net[s].prev.value)
    else net
  }

  /** With everybody alive a stabilization is the step of Ring, whether it fails or not. */
  lemma AllAliveStabilize(net: Net, n: Key)
    requires WellFormed(net) && n in net
    ensures Stabilized(net, n) ==
      if CanStabilize(net, n, {}) then Stabilizing(net, n, {}) else Adopting(net, n, {})
  {
    var s := Succ(net, n);
    assert WellFormedAt(net, s);
  }

  /** With everybody alive a notification is the step of Ring. */
  lemma HeardIsNotified(net: Net, s: Key, n: Key)
    requires s in net
    ensures Heard(net, s, n, {}) == Notified(net, s, n)
  {
  }

  /** The members, each reachable by a request under its id. */
  class Network {
    var nodes: map<Key, Node>

    /** What all of them together know. */
    ghost var net: Net

    /** The objects that hold it. */
    ghost var Repr: set<object>

    /** The node registered under k is in order, and the abstract view tells what it knows. */
    ghost predicate Holds(k: Key)
      requires k in nodes && k in net
      reads this, Repr, nodes[k], nodes[k].finger
    {
      && nodes[k] in Repr && nodes[k].finger in Repr
      && nodes[k].id == k && nodes[k].Ready()
      && net[k] == nodes[k].View()
    }

    ghost predicate Apart(k: Key, l: Key)
      requires k in nodes && l in nodes
      reads this
    {
      k != l ==> nodes[k].finger != nodes[l].finger
    }

    ghost predicate Valid()
      reads this, Repr
      ensures Valid() ==> this in Repr
    {
      && this in Repr
      && (forall k {:trigger nodes[k]} :: k in nodes ==> nodes[k] in Repr && nodes[k].finger in Repr)
      && WellFormed(net)
      && net.Keys == nodes.Keys
      && (forall k {:trigger Holds(k)} :: k in nodes ==> Holds(k))
      && (forall k, l {:trigger Apart(k, l)} :: k in nodes && l in nodes ==> Apart(k, l))
    }

    constructor ()
      ensures Valid() && net == map[] && nodes == map[]
    {
      nodes := map[];
      net := map[];
      Repr := {this};
    }

    // -------------------------------------------------------------- lookups

    /** finger[0] of a node. */
    method Next(node: Key) returns (next: Key)
      requires Valid() && node in nodes
      ensures next == Succ(net, node)
    {
      assert Holds(node);
      next := nodes[node].finger[0].node;
    }

    method KnownPrev(node: Key) returns (prev: Option<Key>)
      requires Valid() && node in nodes
      ensures prev == net[node].prev
    {
      assert Holds(node);
      prev := if nodes[node].prevInitialized then Some(nodes[node].prev) else None;
    }

    method FindNext(node: Key, id: Key) returns (res: Key)
      requires Valid() && node in nodes
      ensures res == Ring.FindNext(net, node, id)
      decreases if node == id then 0 else 3
    {
      if node == id {
        res := Next(node);
        return;
      }
      var prev := FindPrev(node, id);
      res := FindNextRemote(node, prev.value, prev.value);
    }

    method FindNextRemote(node: Key, fwd: Key, id: Key) returns (res: Key)
      requires Valid() && fwd in nodes
      ensures res == Ring.FindNext(net, fwd, id)
      decreases if fwd == id then 1 else 4
    {
      if node == fwd {
        res := FindNext(node, id);
      } else {
        res := FindNext(fwd, id); // answered by fwd to a FIND_NEXT request
      }
    }

    method FindPrev(node: Key, id: Key) returns (res: Option<Key>)
      requires Valid() && node in nodes
      ensures res == Ring.FindPrev(net, node, id)
      decreases 2
    {
      if node == id {
        res := KnownPrev(node);
        return;
      }
      var current := node;
      var next := Next(node);
      while !InsideOrEnd(id, current, next)
        invariant current in nodes && current != id
        invariant next == Succ(net, current)
        invariant LookupPrev(net, current, id) == LookupPrev(net, node, id)
        decreases Dist(current, id)
      {
        PassKeepsResult(net, current, id);
        var closer := FindClosestPrecedingRemote(node, current, id);
        current := closer.value; // always found
        next := FindNextRemote(node, current, current);
      }
      return Some(current);
    }

    method FindPrevRemote(node: Key, fwd: Key, id: Key) returns (res: Option<Key>)
      requires Valid() && fwd in nodes
      ensures res == Ring.FindPrev(net, fwd, id)
      decreases 5
    {
      if node == fwd {
        res := FindPrev(node, id);
      } else {
        res := FindPrev(fwd, id);
      }
    }

    method FindClosestPrecedingRemote(node: Key, fwd: Key, id: Key) returns (res: Option<Key>)
      requires Valid() && fwd in nodes
      ensures res == ClosestPreceding(net, fwd, id)
    {
      assert Holds(fwd);
      if node == fwd {
        res := nodes[node].FindClosestPreceding(id);
      } else {
        res := nodes[fwd].FindClosestPreceding(id);
      }
    }

    // -------------------------------------------------------------- changes

    method SetPrev(node: Key, newPrev: Key)
      requires Valid() && node in nodes && newPrev in nodes
      modifies this`net, nodes[node]
      ensures Valid() && net == old(net)[node := old(net)[node].(prev := Some(newPrev))]
    {
      assert Holds(node);
      PrevKeepsForm(net, node, newPrev);
      var n := nodes[node];
      n.prev := newPrev;
      n.prevInitialized := true;
      net := net[node := net[node].(prev := Some(newPrev))];
      forall k | k in nodes ensures Holds(k) {
        assert old(Holds(k)) && old(Apart(k, node));
        if k != node {
          assert nodes[k].View() == old(nodes[k].View());
        }
      }
      forall k, l | k in nodes && l in nodes ensures Apart(k, l) {
        assert old(Apart(k, l));
      }
    }

    method ForgetPrev(node: Key)
      requires Valid() && node in nodes
      modifies this`net, nodes[node]
      ensures Valid() && net == PrevForgotten(old(net), node)
    {
      assert Holds(node);
      ForgettingKeepsForm(net, node);
      nodes[node].prevInitialized := false;
      net := PrevForgotten(net, node);
      forall k | k in nodes ensures Holds(k) {
        assert old(Holds(k)) && old(Apart(k, node));
        if k != node {
          assert nodes[k].View() == old(nodes[k].View());
        }
      }
      forall k, l | k in nodes && l in nodes ensures Apart(k, l) {
        assert old(Apart(k, l));
      }
    }

    /** node hears from peer. It first asks the predecessor it knows for a sign of life; the nodes
        in `gone` give none, and such a predecessor is forgotten, so that peer replaces it. */
    method Notify(node: Key, peer: Key, gone: set<Key>)
      requires Valid() && node in nodes && peer in nodes
      modifies this`net, nodes[node]
      ensures Valid() && net == Heard(old(net), node, peer, gone)
    {
      assert Holds(node);
      if nodes[node].prevInitialized && nodes[node].prev in gone {
        ForgetPrev(node);
        assert Holds(node);
      }
      if !nodes[node].prevInitialized || Inside(peer, nodes[node].prev, node) {
        SetPrev(node, peer);
      }
    }

    method NotifyRemote(node: Key, fwd: Key, peer: Key, gone: set<Key>)
      requires Valid() && fwd in nodes && peer in nodes
      modifies this`net, nodes[fwd]
      ensures Valid() && net == Heard(old(net), fwd, peer, gone)
    {
      if node == fwd {
        Notify(node, peer, gone);
      } else {
        Notify(fwd, peer, gone);
      }
    }

    method SetFingerEntry(node: Key, i: nat, target: Key)
      requires Valid() && node in nodes && target in nodes && i < KEY_BITS
      modifies this`net, nodes[node].finger
      ensures Valid() && nodes[node].finger.Length == KEY_BITS
      ensures net == if i == 0 then SetSucc(old(net), node, target) else SetFinger(old(net), node, i, target)
      ensures forall j :: 0 <= j < KEY_BITS ==> nodes[node].finger[j].start == old(nodes[node].finger[j].start)
    {
      EntryKeepsForm(net, node, i, target);
      assert WellFormedAt(net, node);
      Write(node, i, target, if i == 0 then SetSucc(net, node, target) else SetFinger(net, node, i, target));
    }

    method Write(node: Key, i: nat, target: Key, ghost after: Net)
      requires Valid() && node in nodes && i < KEY_BITS
      requires WellFormed(after) && after.Keys == net.Keys
      requires forall k {:trigger after[k]} :: k in net && k != node ==> after[k] == net[k]
      requires i == 0 ==> after[node] == net[node].(succ := target)
      requires i > 0 ==>
        |net[node].finger| == KEY_BITS - 1
        && after[node] == net[node].(finger := net[node].finger[i - 1 := Some(target)])
      modifies this`net, nodes[node].finger
      ensures Valid() && net == after && nodes[node].finger.Length == KEY_BITS
      ensures forall j :: 0 <= j < KEY_BITS ==> nodes[node].finger[j].start == old(nodes[node].finger[j].start)
    {
      assert Holds(node);
      nodes[node].SetEntry(i, target);
      net := after;
      forall k | k in nodes ensures Holds(k) {
        assert old(Holds(k)) && old(Apart(k, node));
        if k == node {
          assert nodes[k].View() == net[k];
        } else {
          assert nodes[k].View() == old(nodes[k].View());
          assert net[k] == old(net[k]);
        }
      }
      forall k, l | k in nodes && l in nodes ensures Apart(k, l) {
        assert old(Apart(k, l));
      }
    }

    /** The nodes in `gone` do not answer. It fails when the successor is one of them, or knows no
        predecessor, or reports one of them; that one has been adopted by then. */
    method Stabilize(node: Key, gone: set<Key>) returns (ok: bool)
      requires Valid() && node in nodes
      modifies this`net, Repr
      ensures Valid() && ok == CanStabilize(old(net), node, gone)
      ensures ok ==> net == Stabilizing(old(net), node, gone)
      ensures !ok ==> net == Adopting(old(net), node, gone)
    {
      hide Holds, Apart, LookupPrev, ScanFingers, Heard;
      var next := Next(node);
      if next in gone {
        return false; // the request failed
      }
      var prev := FindPrevRemote(node, next, next);
      if prev.None? {
        return false; // as did this one
      }
      assert WellFormedAt(net, next);
      if Inside(prev.value, node, next) {
        SetFingerEntry(node, 0, prev.value);
      }
      next := Next(node);
      if next in gone {
        return false;
      }
      NotifyRemote(node, next, node, gone);
      ok := true;
    }

    ghost function Start(node: Key, i: nat): Key
      requires Valid() && node in nodes && i < KEY_BITS
      reads this, Repr
    {
      assert Holds(node);
      nodes[node].finger[i].start
    }

    /** The index is any one but 0, where the program draws it at random. */
    method FixFingers(node: Key, i: nat)
      requires Valid() && node in nodes && 1 <= i < KEY_BITS
      modifies this`net, Repr
      ensures Valid() && net == FixedFinger(old(net), node, i, old(Start(node, i)))
      ensures forall j: nat {:trigger Start(node, j)} :: j < KEY_BITS ==> Start(node, j) == old(Start(node, j))
    {
      assert Holds(node);
      var target := FindNext(node, nodes[node].finger[i].start);
      SetFingerEntry(node, i, target);
    }

    /** A node starts out; with no peer it is the only one in the network. */
    method Join(n: Node, peer: Option<Key>, starts: seq<Key>)
      requires Valid() && n !in Repr && n.finger !in Repr && n.finger.Length == KEY_BITS == |starts|
      requires n.id !in nodes
      requires if peer.Some? then peer.value in nodes else nodes == map[]
      modifies this, Repr, n, n.finger
      ensures Valid() && nodes == old(nodes)[n.id := n]
      ensures net == if peer.Some? then Joined(old(net), n.id, peer.value) else Founded(n.id)
      ensures forall i: nat {:trigger Start(n.id, i)} :: i < KEY_BITS ==> Start(n.id, i) == starts[i]
    {
      hide Holds, Apart, Entries, WellFormed, LookupPrev, Founded, Joined;
      n.Reset(starts);
      if peer.Some? {
        JoinThrough(n, peer.value);
      } else {
        StartAlone(n);
      }
    }

    method JoinThrough(n: Node, peer: Key)
      requires Valid() && n !in Repr && n.finger !in Repr && n.id !in nodes && peer in nodes
      requires n.finger.Length == KEY_BITS && n.View().prev == None && n.View().finger == NoFingers()
      modifies this, Repr, n.finger
      ensures Valid() && nodes == old(nodes)[n.id := n] && net == Joined(old(net), n.id, peer)
      ensures forall j :: 0 <= j < KEY_BITS ==> n.finger[j].start == old(n.finger[j].start)
    {
      hide Holds, Apart, WellFormedAt, LookupPrev, ScanFingers, Heard, Notified;
      var next := FindNextRemote(n.id, peer, n.id);
      EnterBehind(n, next);
      HeardIsNotified(net, next, n.id);
      NotifyRemote(n.id, next, n.id, {});
    }

    method StartAlone(n: Node)
      requires Valid() && n !in Repr && n.finger !in Repr && nodes == map[]
      requires n.finger.Length == KEY_BITS && n.View().finger == NoFingers()
      modifies this, n, n.finger
      ensures Valid() && nodes == map[n.id := n] && net == Founded(n.id)
      ensures forall j :: 0 <= j < KEY_BITS ==> n.finger[j].start == old(n.finger[j].start)
    {
      n.SetEntry(0, n.id);
      n.prev := n.id;
      n.prevInitialized := true;
      FoundedInv(n.id);
      Register(n, Peer(n.id, Some(n.id), NoFingers()));
    }

    method EnterBehind(n: Node, next: Key)
      requires Valid() && n !in Repr && n.finger !in Repr && n.id !in nodes && next in nodes
      requires n.finger.Length == KEY_BITS && n.View().prev == None && n.View().finger == NoFingers()
      modifies this, n.finger
      ensures Valid() && nodes == old(nodes)[n.id := n] && Repr == old(Repr) + {n, n.finger}
      ensures net == old(net)[n.id := Peer(next, None, NoFingers())]
      ensures forall j :: 0 <= j < KEY_BITS ==> n.finger[j].start == old(n.finger[j].start)
    {
      n.SetEntry(0, next);
      AddedEffect(net, n.id, next);
      Register(n, Peer(next, None, NoFingers()));
    }

    /** The node answers requests from now on. */
    method Register(n: Node, ghost peer: Peer)
      requires Valid() && n !in Repr && n.finger !in Repr && n.id !in nodes
      requires n.Ready() && n.View() == peer && WellFormed(net[n.id := peer])
      modifies this
      ensures Valid() && nodes == old(nodes)[n.id := n] && net == old(net)[n.id := peer]
      ensures Repr == old(Repr) + {n, n.finger}
    {
      hide WellFormedAt, Entries;
      nodes := nodes[n.id := n];
      net := net[n.id := peer];
      Repr := Repr + {n, n.finger};
      forall k | k in nodes ensures Holds(k) {
        if k != n.id {
          assert old(Holds(k));
          assert nodes[k] == old(nodes[k]) && nodes[k].View() == old(nodes[k].View());
        }
      }
      forall k, l | k in nodes && l in nodes ensures Apart(k, l) {
        assert k != n.id && l != n.id ==> old(Apart(k, l));
      }
    }
  }
}

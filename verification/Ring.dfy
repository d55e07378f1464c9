/** The Chord network as a value: what every member knows, and what each operation of
    the protocol does to it. A remote call reads or changes another member's entry. */
module Ring {
  import opened Circle

  /** succ is the entry finger[0]; finger holds the entries 1 and up, in order, with None
      for an uninitialized one. */
  datatype Peer = Peer(succ: Key, prev: Option<Key>, finger: seq<Option<Key>>)

  type Net = map<Key, Peer>

  ghost predicate FingersAmong(members: set<Key>, finger: seq<Option<Key>>) {
    && |finger| == KEY_BITS - 1
    && forall i :: 0 <= i < |finger| && finger[i].Some? ==> finger[i].value in members
  }

  ghost predicate WellFormedAt(net: Net, n: Key)
    requires n in net
  {
    && net[n].succ in net
    && (net[n].prev.Some? ==> net[n].prev.value in net)
    && FingersAmong(net.Keys, net[n].finger)
  }

  /** Every pointer names a member. */
  ghost predicate WellFormed(net: Net) {
    forall n {:trigger WellFormedAt(net, n)} :: n in net ==> WellFormedAt(net, n)
  }

  ghost function Succ(net: Net, n: Key): (s: Key)
    requires WellFormed(net) && n in net
    ensures s in net
  {
    assert WellFormedAt(net, n);
    net[n].succ
  }

  // ---------------------------------------------------------------- lookups

  /** The highest initialized finger below `top` that lies in (self, id). */
  ghost function ScanFingers(finger: seq<Option<Key>>, self: Key, id: Key, top: nat): (r: Option<Key>)
    requires top <= |finger|
    ensures r.Some? ==> Inside(r.value, self, id)
    ensures r.Some? ==> exists i :: 0 <= i < top && finger[i] == r
  {
    if top == 0 then None
    else if finger[top - 1].Some? && Inside(finger[top - 1].value, self, id) then finger[top - 1]
    else ScanFingers(finger, self, id, top - 1)
  }

  /** What a scan of the whole table of `peer` from entry `top` down to the successor finds. */
  ghost function ScanBelow(peer: Peer, self: Key, id: Key, top: nat): (r: Option<Key>)
    requires top <= |peer.finger|
    ensures Inside(peer.succ, self, id) ==> r.Some?
  {
    var r := ScanFingers(peer.finger, self, id, top);
    if r.Some? then r
    else if Inside(peer.succ, self, id) then Some(peer.succ)
    else None
  }

  ghost function ScanPeer(peer: Peer, self: Key, id: Key): Option<Key> {
    ScanBelow(peer, self, id, |peer.finger|)
  }

  ghost function ClosestPreceding(net: Net, n: Key, id: Key): (r: Option<Key>)
    requires WellFormed(net) && n in net
    ensures r.Some? ==> r.value in net && Inside(r.value, n, id)
    ensures Inside(Succ(net, n), n, id) ==> r.Some?
  {
    assert WellFormedAt(net, n);
    ScanPeer(net[n], n, id)
  }

  /** The member at which the lookup loop of node_find_prev stops when it stands at n. */
  ghost function LookupPrev(net: Net, n: Key, id: Key): (c: Key)
    requires WellFormed(net) && n in net && n != id
    ensures c in net && c != id
    ensures InsideOrEnd(id, c, Succ(net, c))
    ensures Dist(c, id) <= Dist(n, id)
    decreases Dist(n, id)
  {
    if InsideOrEnd(id, n, Succ(net, n)) then n
    else LookupPrev(net, ClosestPreceding(net, n, id).value, id)
  }

  ghost function FindPrev(net: Net, n: Key, id: Key): (r: Option<Key>)
    requires WellFormed(net) && n in net
    ensures r.Some? ==> r.value in net
    ensures n != id ==> r.Some?
  {
    assert WellFormedAt(net, n);
    if n == id then net[n].prev else Some(LookupPrev(net, n, id))
  }

  ghost function FindNext(net: Net, n: Key, id: Key): (s: Key)
    requires WellFormed(net) && n in net
    ensures s in net
  {
    if n == id then Succ(net, n) else Succ(net, LookupPrev(net, n, id))
  }

  // ---------------------------------------------------------------- operations

  ghost function SetSucc(net: Net, n: Key, target: Key): Net
    requires n in net
  {
    net[n := net[n].(succ := target)]
  }

  /** Overwrites finger[i], for an i other than 0. */
  ghost function SetFinger(net: Net, n: Key, i: nat, target: Key): Net
    requires WellFormed(net) && n in net && 1 <= i < KEY_BITS
  {
    assert WellFormedAt(net, n);
    net[n := net[n].(finger := net[n].finger[i - 1 := Some(target)])]
  }

  /** s hears from n, which thinks it might be the predecessor of s. */
  ghost function Notified(net: Net, s: Key, n: Key): Net
    requires s in net
  {
    if net[s].prev.None? || Inside(n, net[s].prev.value, s)
    then net[s := net[s].(prev := Some(n))]
    else net
  }

  ghost function NoFingers(): (finger: seq<Option<Key>>)
    ensures |finger| == KEY_BITS - 1 && forall i :: 0 <= i < |finger| ==> finger[i] == None
  {
    seq(KEY_BITS - 1, i => None)
  }

  /** A node joins without a peer: it is the whole network. */
  ghost function Founded(n: Key): Net {
    map[n := Peer(n, Some(n), NoFingers())]
  }

  /** n joins behind successor s, and s is told at once. */
  ghost function JoinedBehind(net: Net, n: Key, s: Key): Net
    requires s in net && n !in net
  {
    Notified(net[n := Peer(s, None, NoFingers())], s, n)
  }

  ghost function Joined(net: Net, n: Key, peer: Key): Net
    requires WellFormed(net) && peer in net && n !in net
  {
    JoinedBehind(net, n, FindNext(net, peer, n))
  }

  /** n asks its successor s for the predecessor p of s, adopts p when it lies in
      between, and tells its successor about itself. */
  ghost function Stabilized(net: Net, n: Key): Net
    requires WellFormed(net) && n in net
  {
    var s := Succ(net, n);
    match FindPrev(net, s, s)
    case None => net // the request fails and the operation stops here
    case Some(p) =>
      if Inside(p, n, s)
      then Notified(SetSucc(net, n, p), p, n)
      else Notified(net, s, n)
  }

  ghost function FixedFinger(net: Net, n: Key, i: nat, start: Key): Net
    requires WellFormed(net) && n in net && 1 <= i < KEY_BITS
  {
    SetFinger(net, n, i, FindNext(net, n, start))
  }

  // ---------------------------------------------------------------- runs

  datatype Step =
    | Join(n: Key, peer: Key)
    | Stabilize(n: Key)
    | Notify(n: Key) // n tells its successor about itself
    | FixFinger(n: Key, i: nat, start: Key)

  /** One atomic step; a step that names no member, or joins twice, does nothing. */
  ghost function Apply(net: Net, step: Step): Net
    requires WellFormed(net)
  {
    match step
    case Join(n, peer) => if peer in net && n !in net then Joined(net, n, peer) else net
    case Stabilize(n) => if n in net then Stabilized(net, n) else net
    case Notify(n) => if n in net then Notified(net, Succ(net, n), n) else net
    case FixFinger(n, i, start) => if n in net && 1 <= i < KEY_BITS then FixedFinger(net, n, i, start) else net
  }
}

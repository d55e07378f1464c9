/** When a redistribution makes a tracker its own receiver: read off the pointers of the ring. */
module Blocking {
  import opened Circle
  import opened Ring
  import opened RingInvariant
  import opened RingRuns
  import opened RingConvergence
  import opened RingStale
  import opened RingTurns
  import opened RingRepair
  import opened SortedSeq
  import opened Placement
  import opened TorrentFile
  import opened Upkeep

  /** c takes s for its successor although p, the predecessor that s goes by, lies in between. */
  ghost predicate Skips(net: Net, c: Key, p: Key, s: Key)
    requires Ring.WellFormed(net)
  {
    c in net && Succ(net, c) == s && Inside(p, c, s)
  }

  /** Where the lookup of a blocking id stops: at a member that skips the predecessor, with the id
      in the part that is skipped. */
  lemma SelfReceiver(net: Net, s: Key, p: Key, id: Key)
    requires Ring.WellFormed(net) && s in net
    ensures Dest(ToOwners(net, s, p), id) == Some(s) <==>
      id != s && var c := LookupPrev(net, s, id); Skips(net, c, p, s) && InsideOrEnd(id, c, p)
  {
  }

  /** With any fingers: where nobody skips the predecessor, no redistribution is ever blocked. */
  lemma NeverBlocked(w: World, s: Key, p: Key)
    requires Ring.WellFormed(w.net) && s in w.net && s in w.stores
    requires forall c :: c in w.net ==> !Skips(w.net, c, p, s)
    ensures !Blocked(w, s, ToOwners(w.net, s, p))
  {
    hide Dest, Skips;
    BlockedByFile(w, s, ToOwners(w.net, s, p));
    forall e | e in w.stores[s] ensures Dest(ToOwners(w.net, s, p), e.id) != Some(s) {
      SelfReceiver(w.net, s, p, e.id);
    }
  }

  /** With any fingers: a member that skips the predecessor, and that s finds for the id next to
      it, makes a file with that id block. */
  lemma SkippedIdBlocks(w: World, s: Key, p: Key, c: Key, e: Entry<File>)
    requires Ring.WellFormed(w.net) && s in w.net && s in w.stores && e in w.stores[s]
    requires Skips(w.net, c, p, s) && e.id == Advance(c, 1)
    requires LookupPrev(w.net, s, e.id) == c
    ensures Blocked(w, s, ToOwners(w.net, s, p))
  {
    BlockedByFile(w, s, ToOwners(w.net, s, p));
    SelfReceiver(w.net, s, p, e.id);
  }

  /** On an ideal ring nobody skips anyone. */
  lemma IdealSkipsNobody(net: Net, s: Key, p: Key, c: Key)
    requires Ideal(net) && s in net && p in net && c in net
    ensures !Skips(net, c, p, s)
  {
    assert IdealAt(net, c);
  }

  /** With nobody gone a redistribution runs to its end exactly when it is not blocked. */
  lemma SettlesUnlessBlocked(w: World, n: Key, stale: Key)
    requires Ring.WellFormed(w.net) && n in w.net && n in w.stores
    ensures CanSettle(w, n, stale, {}) <==> !Blocked(w, n, ToOwners(w.net, n, LowEnd(w.net, n, stale)))
  {
    hide Blocked, FindNext, Straight;
    var lo := LowEnd(w.net, n, stale);
    BlockedByFile(w, n, ToOwners(w.net, n, lo));
    ViewOfAll(w.net);
    NobodyTraced(w.net);
    forall e | e in w.stores[n]
      ensures CanSend(w.net, n, lo, e.id, {}) <==> Dest(ToOwners(w.net, n, lo), e.id) != Some(n)
    {
      if e.id != n {
        TracelessStraight(w.net, n, e.id, {});
      }
    }
  }

  // ---------------------------------------------------------------- fingers that follow

  /** Every finger that is set names its own node or one that the successors lead to without passing
      it. */
  ghost predicate FingersFollow(net: Net)
    requires Ring.WellFormed(net)
  {
    forall x, i :: x in net && 0 <= i < |net[x].finger| && net[x].finger[i].Some? ==>
      net[x].finger[i].value == x || ArcReaches(net, x, net[x].finger[i].value)
  }

  /** A pass of a lookup then goes on to a member that the successors lead to. */
  lemma PassFollows(net: Net, x: Key, id: Key)
    requires Ring.WellFormed(net) && FingersFollow(net) && x in net
    ensures ClosestPreceding(net, x, id).Some? ==> ArcReaches(net, x, ClosestPreceding(net, x, id).value)
  {
    var r := ScanFingers(net[x].finger, x, id, |net[x].finger|);
    if r.Some? {
      var i :| 0 <= i < |net[x].finger| && net[x].finger[i] == r;
      assert r.value != x;
    }
  }

  /** Of two members on the same path the nearer one leads to the farther one. */
  lemma {:induction false} BothOnPath(net: Net, x: Key, y: Key, z: Key)
    requires Ring.WellFormed(net) && x in net && y in net && Inside(y, x, z)
    requires ArcReaches(net, x, y) && ArcReaches(net, x, z)
    ensures ArcReaches(net, y, z)
    decreases Dist(x, y)
  {
    var t := Succ(net, x);
    if t == y {
    } else {
      BothOnPath(net, t, y, z);
    }
  }

  /** A lookup stops at c, which has the id in its arc, exactly when successors lead there. */
  lemma {:induction false} StopsIff(net: Net, x: Key, c: Key, id: Key)
    requires Ring.WellFormed(net) && FingersFollow(net) && x in net && c in net && x != id
    requires InsideOrEnd(id, c, Succ(net, c)) && (x == c || Inside(c, x, id))
    ensures LookupPrev(net, x, id) == c <==> x == c || ArcReaches(net, x, c)
    decreases Dist(x, id)
  {
    hide FingersFollow;
    if x == c || InsideOrEnd(id, x, Succ(net, x)) {
    } else {
      var y := ClosestPreceding(net, x, id).value;
      PassFollows(net, x, id);
      if Inside(y, x, c) {
        StopsIff(net, y, c, id);
        if ArcReaches(net, x, c) {
          BothOnPath(net, x, y, c);
        }
        if ArcReaches(net, y, c) {
          ArcJoin(net, x, y, c);
        }
      } else if y != c {
        if ArcReaches(net, x, c) {
          BothOnPath(net, x, c, y);
        }
      }
    }
  }

  /** Fingers go on to follow through every step but a repair. */
  lemma StepKeepsFollowing(net: Net, founder: Key, step: Step)
    requires Inv(net, founder) && FingersFollow(net) && !step.FixFinger?
    ensures Inv(Apply(net, step), founder) && FingersFollow(Apply(net, step))
  {
    hide Anchored, Told, Linked, ArcReaches;
    StepInv(net, step, founder);
    var net' := Apply(net, step);
    forall x, i | x in net' && 0 <= i < |net'[x].finger| && net'[x].finger[i].Some?
      ensures net'[x].finger[i].value == x || ArcReaches(net', x, net'[x].finger[i].value)
    {
      FingersStay(net, step, x);
      if net[x].finger[i].value != x {
        StepKeepsArc(net, step, founder, x, net[x].finger[i].value);
      }
    }
  }

  lemma FingersStay(net: Net, step: Step, x: Key)
    requires Ring.WellFormed(net) && Ring.WellFormed(Apply(net, step)) && !step.FixFinger? && x in Apply(net, step)
    ensures x in net ==> Apply(net, step)[x].finger == net[x].finger
    ensures x !in net ==> Apply(net, step)[x].finger == NoFingers()
  {
  }

  lemma {:induction false} LookupFollows(net: Net, x: Key, id: Key)
    requires Ring.WellFormed(net) && FingersFollow(net) && x in net && x != id
    ensures var c := LookupPrev(net, x, id); c == x || (ArcReaches(net, x, c) && Inside(c, x, id))
    decreases Dist(x, id)
  {
    hide FingersFollow, ArcReaches;
    if InsideOrEnd(id, x, Succ(net, x)) {
    } else {
      var y := ClosestPreceding(net, x, id).value;
      PassFollows(net, x, id);
      LookupFollows(net, y, id);
      var c := LookupPrev(net, y, id);
      if c != y {
        ArcJoin(net, x, y, c);
      }
    }
  }

  /** And through a repair by a node that no successor pointer jumps over. */
  lemma RepairKeepsFollowing(net: Net, n: Key, i: nat, start: Key)
    requires Ring.WellFormed(net) && FingersFollow(net) && n in net && 1 <= i < KEY_BITS
    requires forall c :: c in net ==> !Inside(n, c, Succ(net, c))
    ensures Ring.WellFormed(FixedFinger(net, n, i, start)) && FingersFollow(FixedFinger(net, n, i, start))
  {
    hide LookupPrev, ArcReaches;
    var target := FindNext(net, n, start);
    RepairFollows(net, n, start);
    SetFingerEffect(net, n, i, target);
    var net' := SetFinger(net, n, i, target);
    forall x, j | x in net' && 0 <= j < |net'[x].finger| && net'[x].finger[j].Some?
      ensures net'[x].finger[j].value == x || ArcReaches(net', x, net'[x].finger[j].value)
    {
      var y := net'[x].finger[j].value;
      OneFinger(net, n, i, target, x, j);
      if y != x {
        forall k | k in net ensures Succ(net', k) == Succ(net, k) {
        }
        ArcFrame(net, net', x, y);
      }
    }
  }

  lemma OneFinger(net: Net, n: Key, i: nat, target: Key, x: Key, j: nat)
    requires Ring.WellFormed(net) && n in net && 1 <= i < KEY_BITS && x in net && target in net
    requires j < |SetFinger(net, n, i, target)[x].finger|
    ensures |SetFinger(net, n, i, target)[x].finger| == |net[x].finger|
    ensures SetFinger(net, n, i, target)[x].finger[j] == if x == n && j == i - 1 then Some(target) else net[x].finger[j]
  {
    assert WellFormedAt(net, n);
  }

  lemma RepairFollows(net: Net, n: Key, start: Key)
    requires Ring.WellFormed(net) && FingersFollow(net) && n in net
    requires forall c :: c in net ==> !Inside(n, c, Succ(net, c))
    ensures FindNext(net, n, start) == n || ArcReaches(net, n, FindNext(net, n, start))
  {
    hide FingersFollow;
    if n != start {
      LookupFollows(net, n, start);
      var c := LookupPrev(net, n, start);
      var target := Succ(net, c);
      if c != n && target != n {
        NotOver(n, c, target);
        ArcJoin(net, n, c, target);
      }
    }
  }

  lemma NotOver(n: Key, c: Key, t: Key)
    requires !Inside(n, c, t) && n != c && n != t
    ensures Inside(c, n, t)
  {
  }

  /** The member c that skips the predecessor is led to from s. */
  ghost predicate Traps(net: Net, c: Key, p: Key, s: Key)
    requires Ring.WellFormed(net) && s in net
  {
    Skips(net, c, p, s) && (c == s || ArcReaches(net, s, c))
  }

  lemma SelfReceiverIff(net: Net, s: Key, p: Key, id: Key)
    requires Ring.WellFormed(net) && FingersFollow(net) && s in net
    ensures Dest(ToOwners(net, s, p), id) == Some(s) <==> exists c :: Traps(net, c, p, s) && InsideOrEnd(id, c, p)
  {
    hide Dest, ArcReaches;
    SelfReceiver(net, s, p, id);
    if Dest(ToOwners(net, s, p), id) == Some(s) {
      var c := LookupPrev(net, s, id);
      StopsIff(net, s, c, id);
      assert Traps(net, c, p, s);
    }
    if c :| Traps(net, c, p, s) && InsideOrEnd(id, c, p) {
      StopsIff(net, s, c, id);
    }
  }

  /** Exactly which files block a redistribution: those in the part that is skipped by a member
      that successors lead to. */
  lemma BlockedIff(w: World, s: Key, p: Key)
    requires Ring.WellFormed(w.net) && FingersFollow(w.net) && s in w.net && s in w.stores
    ensures Blocked(w, s, ToOwners(w.net, s, p)) <==>
      exists e, c :: e in w.stores[s] && Traps(w.net, c, p, s) && InsideOrEnd(e.id, c, p)
  {
    hide Dest, Traps;
    BlockedByFile(w, s, ToOwners(w.net, s, p));
    forall e | e in w.stores[s]
      ensures Dest(ToOwners(w.net, s, p), e.id) == Some(s)
        <==> exists c :: Traps(w.net, c, p, s) && InsideOrEnd(e.id, c, p)
    {
      SelfReceiverIff(w.net, s, p, e.id);
    }
  }

  /** Some id can block exactly when such a member exists. */
  lemma CanBlockIff(net: Net, s: Key, p: Key)
    requires Ring.WellFormed(net) && FingersFollow(net) && s in net
    ensures (exists id :: Dest(ToOwners(net, s, p), id) == Some(s)) <==> exists c :: Traps(net, c, p, s)
  {
    hide Dest, ArcReaches;
    if id :| Dest(ToOwners(net, s, p), id) == Some(s) {
      SelfReceiverIff(net, s, p, id);
    }
    if c :| Traps(net, c, p, s) {
      SelfReceiverIff(net, s, p, p);
    }
  }
}

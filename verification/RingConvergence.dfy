/** Stabilization converges: every effective step lowers a sum of distances, counted in members,
    and nothing is left to do exactly when the pointers form the one sorted cycle over all members. */
module RingConvergence {
  import opened Circle
  import opened Ring
  import opened RingInvariant

  // ---------------------------------------------------------------- the ideal ring

  /** s is the first member met when leaving n clockwise. */
  ghost predicate IsNext(members: set<Key>, n: Key, s: Key) {
    s in members && forall m :: m in members ==> !Inside(m, n, s)
  }

  ghost predicate IdealAt(net: Net, n: Key)
    requires WellFormed(net) && n in net
  {
    && IsNext(net.Keys, n, Succ(net, n))
    && net[n].prev.Some?
    && IsNext(net.Keys, net[n].prev.value, n)
  }

  /** Successors and predecessors form one cycle over all members, sorted by id. */
  ghost predicate Ideal(net: Net) {
    WellFormed(net) && forall n {:trigger IdealAt(net, n)} :: n in net ==> IdealAt(net, n)
  }

  lemma NextIsUnique(members: set<Key>, n: Key, s: Key, s': Key)
    requires IsNext(members, n, s) && IsNext(members, n, s')
    ensures s == s'
  {
  }

  lemma PrevIsUnique(members: set<Key>, n: Key, p: Key, p': Key)
    requires p in members && p' in members && IsNext(members, p, n) && IsNext(members, p', n)
    ensures p == p'
  {
  }

  // ---------------------------------------------------------------- the ranking function

  /** The members met on the way from a to b, b included. */
  ghost function Met(members: set<Key>, a: Key, b: Key): set<Key> {
    set m | m in members && InsideOrEnd(m, a, b)
  }

  /** How many members lie on the way: a distance that does not depend on the size of the circle. */
  ghost function Steps(members: set<Key>, a: Key, b: Key): (d: nat)
    ensures d <= |members|
  {
    SubsetSize(Met(members, a, b), members);
    |Met(members, a, b)|
  }

  lemma SubsetSize(s: set<Key>, t: set<Key>)
    requires s <= t
    ensures |s| <= |t| && (|s| == |t| ==> s == t)
  {
    assert t == s + (t - s);
  }

  /** From n the member p lies nearer than s, to s the member n lies nearer than q. */
  lemma Nearer(members: set<Key>, n: Key, p: Key, s: Key)
    requires Inside(p, n, s) && s in members
    ensures Steps(members, n, p) < Steps(members, n, s)
    ensures p in members ==> Steps(members, p, s) < Steps(members, n, s)
  {
    SubsetSize(Met(members, n, p), Met(members, n, s));
    assert s in Met(members, n, s) && s !in Met(members, n, p);
    SubsetSize(Met(members, p, s), Met(members, n, s));
    if p in members {
      assert p in Met(members, n, s) && p !in Met(members, p, s);
    }
  }

  ghost function Weight(net: Net, n: Key): (w: nat)
    requires WellFormed(net) && n in net
    ensures w <= 2 * |net.Keys| + 1
  {
    Steps(net.Keys, n, Succ(net, n))
    + if net[n].prev.None? then |net.Keys| + 1 else Steps(net.Keys, net[n].prev.value, n)
  }

  ghost function Total(net: Net, s: set<Key>): nat
    requires WellFormed(net) && s <= net.Keys
  {
    if s == {} then 0
    else
      var n :| n in s;
      Weight(net, n) + Total(net, s - {n})
  }

  ghost function Measure(net: Net): nat
    requires WellFormed(net)
  {
    Total(net, net.Keys)
  }

  lemma {:induction false} TotalSplit(net: Net, s: set<Key>, n: Key)
    requires WellFormed(net) && s <= net.Keys && n in s
    ensures Total(net, s) == Weight(net, n) + Total(net, s - {n})
    decreases s
  {
    var x :| x in s && Total(net, s) == Weight(net, x) + Total(net, s - {x});
    if x == n {
    } else {
      TotalSplit(net, s - {x}, n);
      TotalSplit(net, s - {n}, x);
      assert s - {x} - {n} == s - {n} - {x};
    }
  }

  lemma {:induction false} TotalMonotone(net: Net, net': Net, s: set<Key>)
    requires WellFormed(net) && WellFormed(net') && s <= net.Keys && s <= net'.Keys
    requires forall k {:trigger Weight(net', k)} :: k in s ==> Weight(net', k) <= Weight(net, k)
    ensures Total(net', s) <= Total(net, s)
    decreases s
  {
    if s == {} {
    } else {
      var n :| n in s;
      TotalMonotone(net, net', s - {n});
      TotalSplit(net, s, n);
      TotalSplit(net', s, n);
    }
  }

  lemma {:induction false} TotalBound(net: Net, s: set<Key>)
    requires WellFormed(net) && s <= net.Keys
    ensures Total(net, s) <= |s| * (2 * |net.Keys| + 1)
    decreases s
  {
    hide Weight;
    if s == {} {
    } else {
      var n :| n in s;
      TotalBound(net, s - {n});
      TotalSplit(net, s, n);
      Distribute(|s - {n}|, 2 * |net.Keys| + 1);
    }
  }

  lemma Distribute(k: nat, w: nat)
    ensures (k + 1) * w == k * w + w
  {
  }

  /** The most that the measure of so many members can be. */
  ghost function Bound(members: set<Key>): nat {
    |members| * (2 * |members| + 1)
  }

  lemma BoundGrows(s: set<Key>, t: set<Key>)
    requires s <= t
    ensures Bound(s) <= Bound(t)
  {
    SubsetSize(s, t);
    Quadratic(|s|, |t|);
  }

  lemma Quadratic(a: nat, b: nat)
    requires a <= b
    ensures a * (2 * a + 1) <= b * (2 * b + 1)
  {
    assert a * (2 * a + 1) <= a * (2 * b + 1) <= b * (2 * b + 1);
  }

  /** The measure is at most quadratic in the number of members. */
  lemma MeasureBound(net: Net)
    requires WellFormed(net)
    ensures Measure(net) <= Bound(net.Keys)
  {
    TotalBound(net, net.Keys);
  }

  lemma MeasureDrops(net: Net, net': Net, n: Key)
    requires WellFormed(net) && WellFormed(net') && net'.Keys == net.Keys && n in net
    requires forall k {:trigger Weight(net', k)} :: k in net ==> Weight(net', k) <= Weight(net, k)
    requires Weight(net', n) < Weight(net, n)
    ensures Measure(net') < Measure(net)
  {
    TotalSplit(net, net.Keys, n);
    TotalSplit(net', net.Keys, n);
    TotalMonotone(net, net', net.Keys - {n});
  }

  lemma NotifyDrops(net: Net, s: Key, n: Key)
    requires WellFormed(net) && s in net && n in net
    ensures WellFormed(Notified(net, s, n)) && Notified(net, s, n).Keys == net.Keys
    ensures Notified(net, s, n) != net ==> Measure(Notified(net, s, n)) < Measure(net)
  {
    var net' := Notified(net, s, n);
    NotifiedEffect(net, s, n);
    if net' != net {
      assert WellFormedAt(net, s);
      assert net'[s].prev == Some(n);
      if net[s].prev.Some? {
        Nearer(net.Keys, net[s].prev.value, n, s);
      }
      MeasureDrops(net, net', s);
    }
  }

  lemma AdoptDrops(net: Net, n: Key, p: Key)
    requires WellFormed(net) && n in net && p in net && Inside(p, n, Succ(net, n))
    ensures WellFormed(SetSucc(net, n, p)) && Measure(SetSucc(net, n, p)) < Measure(net)
  {
    SetSuccEffect(net, n, p);
    Nearer(net.Keys, n, p, Succ(net, n));
    MeasureDrops(net, SetSucc(net, n, p), n);
  }

  /** Every stabilization that changes anything strictly lowers the measure. */
  lemma StabilizeDrops(net: Net, n: Key)
    requires WellFormed(net) && n in net
    ensures WellFormed(Stabilized(net, n)) && Stabilized(net, n).Keys == net.Keys
    ensures Stabilized(net, n) != net ==> Measure(Stabilized(net, n)) < Measure(net)
  {
    var s := Succ(net, n);
    assert WellFormedAt(net, s);
    if net[s].prev.Some? {
      var p := net[s].prev.value;
      if Inside(p, n, s) {
        SetSuccEffect(net, n, p);
        AdoptDrops(net, n, p);
        NotifyDrops(SetSucc(net, n, p), p, n);
      } else {
        NotifyDrops(net, s, n);
      }
    }
  }

  // ---------------------------------------------------------------- quiescence

  /** No stabilization can change anything. */
  ghost predicate Quiescent(net: Net)
    requires WellFormed(net)
  {
    forall n {:trigger Stabilized(net, n)} :: n in net ==> Stabilized(net, n) == net
  }

  /** In a quiet ring each node is the predecessor of its successor. */
  lemma QuietPrev(net: Net, n: Key)
    requires WellFormed(net) && Told(net) && n in net && Stabilized(net, n) == net
    ensures net[Succ(net, n)].prev == Some(n)
  {
  }

  /** f is injective on s and takes s into t. */
  ghost predicate Embeds(s: set<Key>, t: set<Key>, f: map<Key, Key>) {
    && s <= f.Keys
    && (forall x {:trigger f[x]} :: x in s ==> f[x] in t)
    && (forall x, y {:trigger f[x], f[y]} :: x in s && y in s && f[x] == f[y] ==> x == y)
  }

  ghost function Image(s: set<Key>, f: map<Key, Key>): set<Key>
    requires s <= f.Keys
  {
    set x | x in s :: f[x]
  }

  lemma {:induction false} ImageSize(s: set<Key>, t: set<Key>, f: map<Key, Key>)
    requires Embeds(s, t, f)
    ensures |Image(s, f)| == |s|
    decreases s
  {
    if s == {} {
    } else {
      var x :| x in s;
      ImageSize(s - {x}, t, f);
      assert Image(s, f) == Image(s - {x}, f) + {f[x]};
      assert f[x] !in Image(s - {x}, f);
    }
  }

  lemma EmbeddingFits(s: set<Key>, t: set<Key>, f: map<Key, Key>)
    requires Embeds(s, t, f)
    ensures |s| <= |t|
  {
    ImageSize(s, t, f);
    SubsetSize(Image(s, f), t);
  }

  lemma Preimage(s: set<Key>, t: set<Key>, f: map<Key, Key>, y: Key) returns (x: Key)
    requires Embeds(s, t, f) && |s| == |t| && y in t
    ensures x in s && f[x] == y
  {
    ImageSize(s, t, f);
    SubsetSize(Image(s, f), t);
    assert y in Image(s, f);
    x :| x in s && f[x] == y;
  }

  /** The predecessor m knows, or m itself when it knows none. */
  ghost function Pred(net: Net, m: Key): Key
    requires m in net
  {
    if net[m].prev.Some? then net[m].prev.value else m
  }

  ghost function SuccMap(net: Net): (f: map<Key, Key>)
    requires WellFormed(net)
    ensures f.Keys == net.Keys
    ensures forall n {:trigger f[n]} :: n in net ==> f[n] == Succ(net, n)
  {
    map n | n in net :: Succ(net, n)
  }

  lemma SuccEmbeds(net: Net)
    requires WellFormed(net) && Told(net) && Quiescent(net)
    ensures Embeds(net.Keys, net.Keys, SuccMap(net))
  {
    var f := SuccMap(net);
    forall x, y | x in net && y in net && f[x] == f[y] ensures x == y {
      QuietPrev(net, x);
      QuietPrev(net, y);
    }
  }

  lemma SomeoneBefore(net: Net, m: Key) returns (n: Key)
    requires WellFormed(net) && Told(net) && Quiescent(net) && m in net
    ensures n in net && Succ(net, n) == m
  {
    SuccEmbeds(net);
    n := Preimage(net.Keys, net.Keys, SuccMap(net), m);
  }

  /** Every member is the successor of the one it knows as its predecessor. */
  lemma QuietPred(net: Net, m: Key)
    requires WellFormed(net) && Told(net) && Quiescent(net) && m in net
    ensures net[m].prev == Some(Pred(net, m)) && Pred(net, m) in net && Succ(net, Pred(net, m)) == m
  {
    var n := SomeoneBefore(net, m);
    QuietPrev(net, n);
  }

  /** Measured from the founder, a predecessor comes first unless its successor is the founder. */
  lemma PredBefore(net: Net, founder: Key, k: Key)
    requires WellFormed(net) && Anchored(net, founder) && k in net && k != founder
    requires Pred(net, k) in net && Succ(net, Pred(net, k)) == k
    ensures Gap(founder, Pred(net, k)) < Gap(founder, k)
  {
  }

  /** Two newcomers cannot be squeezed in where one has left. */
  lemma TooMany(some: set<Key>, gone: Key, x: Key, y: Key, f: map<Key, Key>)
    requires gone in some && x !in some - {gone} && y !in some - {gone} && x != y
    ensures !Embeds(some - {gone} + {x, y}, some, f)
  {
    assert |some - {gone} + {x, y}| == |some - {gone}| + 2;
    if Embeds(some - {gone} + {x, y}, some, f) {
      EmbeddingFits(some - {gone} + {x, y}, some, f);
    }
  }

  ghost function PredMap(net: Net, s: set<Key>): (f: map<Key, Key>)
    requires s <= net.Keys
    ensures f.Keys == s
    ensures forall k {:trigger f[k]} :: k in s ==> f[k] == Pred(net, k)
  {
    map k | k in s :: Pred(net, k)
  }

  /** The members met before m when walking from the founder. */
  ghost function Before(net: Net, founder: Key, m: Key): (s: set<Key>)
    ensures s <= net.Keys
  {
    set k | k in net && Gap(founder, k) < Gap(founder, m)
  }

  lemma PredsEmbed(net: Net, founder: Key, n: Key, m: Key)
    requires WellFormed(net) && Anchored(net, founder) && Told(net) && Quiescent(net)
    requires n in net && m in net && Inside(m, n, Succ(net, n)) && n in Before(net, founder, m)
    ensures var needy := Before(net, founder, m) - {founder} + {m, Succ(net, n)};
      needy <= net.Keys && Embeds(needy, Before(net, founder, m), PredMap(net, needy))
  {
    var s := Succ(net, n);
    var needy := Before(net, founder, m) - {founder} + {m, s};
    var f := PredMap(net, needy);
    QuietPrev(net, n);
    forall k | k in needy ensures f[k] in Before(net, founder, m) && Succ(net, f[k]) == k {
      QuietPred(net, k);
      if k != s {
        PredBefore(net, founder, k);
      }
    }
  }

  /** A quiet ring that never jumps over the founder has no member between n and its
      successor: otherwise more members would need a predecessor before m than there are. */
  lemma QuietNext(net: Net, founder: Key, n: Key, m: Key)
    requires WellFormed(net) && Anchored(net, founder) && Told(net) && Quiescent(net)
    requires n in net && m in net
    ensures !Inside(m, n, Succ(net, n))
  {
    var s := Succ(net, n);
    assert InsideOrEnd(s, n, founder);
    if Inside(m, n, s) {
      var before := Before(net, founder, m);
      PredsEmbed(net, founder, n, m);
      TooMany(before, founder, m, s, PredMap(net, before - {founder} + {m, s}));
    }
  }

  /** Nothing can change exactly when the ring is ideal. */
  lemma QuiescentIffIdeal(net: Net, founder: Key)
    requires Inv(net, founder)
    ensures Quiescent(net) <==> Ideal(net)
  {
    if Quiescent(net) {
      forall n | n in net ensures IdealAt(net, n) {
        QuietPred(net, n);
        var p := Pred(net, n);
        forall m | m in net ensures !Inside(m, n, Succ(net, n)) && !Inside(m, p, n) {
          QuietNext(net, founder, n, m);
          QuietNext(net, founder, p, m);
        }
      }
    }
    if Ideal(net) {
      forall n | n in net ensures Stabilized(net, n) == net {
        IdealIsQuiet(net, n);
      }
    }
  }

  lemma IdealIsQuiet(net: Net, n: Key)
    requires Ideal(net) && n in net
    ensures Stabilized(net, n) == net
  {
    var s := Succ(net, n);
    assert IdealAt(net, n) && IdealAt(net, s) && WellFormedAt(net, s);
    PrevIsUnique(net.Keys, s, net[s].prev.value, n);
  }

  // ---------------------------------------------------------------- convergence

  /** Every node named in `order` stabilizes once, in that order. */
  ghost function Round(net: Net, order: seq<Key>): (net': Net)
    requires WellFormed(net)
    ensures WellFormed(net') && net'.Keys == net.Keys
    ensures Measure(net') <= Measure(net)
    decreases |order|
  {
    if order == [] then net
    else if order[0] in net then
      StabilizeDrops(net, order[0]);
      Round(Stabilized(net, order[0]), order[1..])
    else Round(net, order[1..])
  }

  ghost function Rounds(net: Net, rounds: seq<seq<Key>>): (net': Net)
    requires WellFormed(net)
    ensures WellFormed(net') && net'.Keys == net.Keys
    decreases |rounds|
  {
    if rounds == [] then net else Rounds(Round(net, rounds[0]), rounds[1..])
  }

  lemma {:induction false} RoundInv(net: Net, order: seq<Key>, founder: Key)
    requires Inv(net, founder)
    ensures Inv(Round(net, order), founder)
    decreases |order|
  {
    if order == [] {
    } else {
      if order[0] in net {
        StabilizeInv(net, order[0], founder);
        RoundInv(Stabilized(net, order[0]), order[1..], founder);
      } else {
        RoundInv(net, order[1..], founder);
      }
    }
  }

  /** A round that leaves the measure alone found nothing to change. */
  lemma {:induction false} RoundDrops(net: Net, order: seq<Key>, n: Key)
    requires WellFormed(net) && n in net && n in order && Stabilized(net, n) != net
    ensures Measure(Round(net, order)) < Measure(net)
    decreases |order|
  {
    if order[0] in net && Stabilized(net, order[0]) != net {
      StabilizeDrops(net, order[0]);
    } else {
      RoundDrops(net, order[1..], n);
    }
  }

  lemma {:induction false} IdealStays(net: Net, order: seq<Key>)
    requires Ideal(net)
    ensures Round(net, order) == net
    decreases |order|
  {
    if order == [] {
    } else {
      if order[0] in net {
        IdealIsQuiet(net, order[0]);
      }
      IdealStays(net, order[1..]);
    }
  }

  /** From any state a run can reach, rounds in which every member takes a turn, in any
      order, make the ring ideal before their number exceeds the measure; and it stays so. */
  lemma {:induction false} Converges(net: Net, founder: Key, rounds: seq<seq<Key>>)
    requires Inv(net, founder)
    requires forall i :: 0 <= i < |rounds| ==> forall n :: n in net ==> n in rounds[i]
    requires |rounds| > Measure(net)
    ensures Ideal(Rounds(net, rounds)) && Rounds(net, rounds).Keys == net.Keys
    decreases |rounds|
  {
    if Ideal(net) {
      StaysIdeal(net, rounds);
    } else {
      QuiescentIffIdeal(net, founder);
      var n :| n in net && Stabilized(net, n) != net;
      RoundDrops(net, rounds[0], n);
      RoundInv(net, rounds[0], founder);
      Converges(Round(net, rounds[0]), founder, rounds[1..]);
    }
  }

  lemma {:induction false} StaysIdeal(net: Net, rounds: seq<seq<Key>>)
    requires Ideal(net)
    ensures Rounds(net, rounds) == net
    decreases |rounds|
  {
    if rounds == [] {
    } else {
      IdealStays(net, rounds[0]);
      StaysIdeal(net, rounds[1..]);
    }
  }

  lemma IdealLinks(net: Net, n: Key)
    requires Ideal(net) && n in net
    ensures LinkedAt(net, n)
  {
    hide IsNext;
    assert WellFormedAt(net, n) && IdealAt(net, n);
    var p := net[n].prev.value;
    assert IdealAt(net, p);
    NextIsUnique(net.Keys, p, Succ(net, p), n);
  }

  /** On an ideal ring any member can stand in for the founder. */
  lemma IdealIsInv(net: Net, founder: Key)
    requires Ideal(net) && founder in net
    ensures Inv(net, founder)
  {
    hide LinkedAt;
    forall n | n in net ensures InsideOrEnd(Succ(net, n), n, founder) && net[Succ(net, n)].prev.Some? {
      assert IdealAt(net, n) && IdealAt(net, Succ(net, n));
    }
    forall n | n in net ensures LinkedAt(net, n) {
      IdealLinks(net, n);
    }
  }

  lemma FoundedIsIdeal(n: Key)
    ensures Ideal(Founded(n))
  {
  }

  // ---------------------------------------------------------------- ideal rings can be reached

  /** The members in some order. */
  ghost function Listing(members: set<Key>): (order: seq<Key>)
    ensures forall n :: n in members ==> n in order
  {
    if members == {} then []
    else
      var n :| n in members;
      [n] + Listing(members - {n})
  }

  /** As many rounds of everyone as convergence can take. */
  ghost function FairRounds(net: Net): (rounds: seq<seq<Key>>)
    requires WellFormed(net)
    ensures |rounds| > Measure(net)
    ensures forall i :: 0 <= i < |rounds| ==> forall n :: n in net ==> n in rounds[i]
  {
    seq(Measure(net) + 1, i => Listing(net.Keys))
  }

  /** Starting from one member, joins and stabilization build an ideal ring over any members. */
  lemma {:induction false} IdealExists(members: set<Key>) returns (net: Net)
    requires members != {}
    ensures Ideal(net) && net.Keys == members
    decreases members
  {
    var n :| n in members;
    if members == {n} {
      net := Founded(n);
      FoundedIsIdeal(n);
    } else {
      var before := IdealExists(members - {n});
      var peer :| peer in before;
      IdealIsInv(before, peer);
      StepInv(before, Join(n, peer), peer);
      var joined := Joined(before, n, peer);
      assert joined.Keys == members;
      Converges(joined, peer, FairRounds(joined));
      net := Rounds(joined, FairRounds(joined));
    }
  }
}

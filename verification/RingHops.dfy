/** With finger tables as documented a lookup takes at most 256 hops. */
module RingHops {
  import opened Circle
  import opened Ring
  import opened RingInvariant
  import opened RingRuns
  import opened RingConvergence
  import opened RingLookup

  ghost function Pow2(k: nat): (p: nat)
    ensures p >= 1
  {
    if k == 0 then 1 else 2 * Pow2(k - 1)
  }

  /** The number of binary digits of d. */
  ghost function BitLength(d: nat): nat {
    if d == 0 then 0 else 1 + BitLength(d / 2)
  }

  lemma {:induction false} BitLengthBounds(d: nat)
    ensures d < Pow2(BitLength(d))
    ensures d > 0 ==> Pow2(BitLength(d) - 1) <= d
  {
    if d == 0 {
    } else {
      BitLengthBounds(d / 2);
    }
  }

  lemma {:induction false} BitLengthBelow(d: nat, k: nat)
    requires d < Pow2(k)
    ensures BitLength(d) <= k
  {
    if d == 0 {
    } else {
      BitLengthBelow(d / 2, k - 1);
    }
  }

  lemma {:induction false} Pow2Grows(j: nat, k: nat)
    requires j <= k
    ensures Pow2(j) <= Pow2(k)
    decreases k
  {
    if j == k {
    } else {
      Pow2Grows(j, k - 1);
    }
  }

  lemma {:induction false} Pow2Add(j: nat, k: nat)
    ensures Pow2(j + k) == Pow2(j) * Pow2(k)
    decreases k
  {
    if k == 0 {
    } else {
      Pow2Add(j, k - 1);
    }
  }

  /** Six doublings of the exponent; k stays symbolic so that nothing is unrolled. */
  lemma CircleSizeFrom(k: nat)
    requires Pow2(k) == 16
    ensures Pow2(64 * k) == SIZE
  {
    Pow2Add(k, k);
    Pow2Add(2 * k, 2 * k);
    Pow2Add(4 * k, 4 * k);
    Pow2Add(8 * k, 8 * k);
    Pow2Add(16 * k, 16 * k);
    Pow2Add(32 * k, 32 * k);
  }

  lemma CircleSize()
    ensures Pow2(KEY_BITS) == SIZE
  {
    CircleSizeFrom(4);
  }

  lemma Pow2Below(i: nat)
    requires i < KEY_BITS
    ensures Pow2(i) < SIZE
  {
    CircleSize();
    Pow2Grows(i, KEY_BITS - 1);
  }

  /** Entry i of the finger table of n, i in 0..255. */
  ghost function Finger(net: Net, n: Key, i: nat): Option<Key>
    requires WellFormed(net) && n in net && i < KEY_BITS
  {
    assert WellFormedAt(net, n);
    if i == 0 then Some(net[n].succ) else net[n].finger[i - 1]
  }

  ghost predicate FingerCorrect(net: Net, n: Key, i: nat)
    requires WellFormed(net) && n in net && i < KEY_BITS
  {
    Pow2Below(i);
    var f := Finger(net, n, i);
    f.Some? && IsOwner(net.Keys, Advance(n, Pow2(i)), f.value)
  }

  /** Every finger[i] is the successor of id + 2^i. */
  ghost predicate FingersCorrect(net: Net) {
    && Ideal(net)
    && forall n, i: nat {:trigger FingerCorrect(net, n, i)} :: n in net && i < KEY_BITS ==> FingerCorrect(net, n, i)
  }

  // ---------------------------------------------------------------- how the tables come about

  /** A finger repair with the start key that the documentation gives the finger. */
  ghost predicate Proper(step: Step) {
    && step.FixFinger? && 1 <= step.i < KEY_BITS
    && Pow2(step.i) < SIZE && step.start == Advance(step.n, Pow2(step.i))
  }

  ghost predicate Repairs(step: Step, n: Key, i: nat) {
    step.FixFinger? && step.n == n && step.i == i
  }

  ghost predicate Covers(steps: seq<Step>, n: Key, i: nat) {
    exists j :: 0 <= j < |steps| && Repairs(steps[j], n, i)
  }

  /** The successor is the owner of the next key: finger 0 is correct on every ideal ring. */
  lemma FirstIsCorrect(net: Net, n: Key)
    requires Ideal(net) && n in net
    ensures FingerCorrect(net, n, 0)
  {
    assert IdealAt(net, n);
    Pow2Below(0);
    assert Pow2(0) == 1;
    NextOwnsArc(net.Keys, n, Succ(net, n), Advance(n, 1));
  }

  /** On an ideal ring a repair makes its own entry correct and spoils no other one. */
  lemma RepairHelps(net: Net, step: Step, m: Key, k: nat)
    requires Ideal(net) && Proper(step) && m in net && k < KEY_BITS
    ensures Ideal(Apply(net, step)) && Apply(net, step).Keys == net.Keys
    ensures FingerCorrect(net, m, k) || Repairs(step, m, k) ==> FingerCorrect(Apply(net, step), m, k)
  {
    hide LookupPrev, IsOwner, IdealAt, WellFormedAt;
    if step.n in net {
      var target := FindNext(net, step.n, step.start);
      EntryKeepsForm(net, step.n, step.i, target);
      FindNextIsOwner(net, step.n, step.start);
      EntryKeepsIdeal(net, Apply(net, step));
      OneEntry(net, step.n, step.i, target, m, k);
    }
  }

  lemma EntryKeepsIdeal(net: Net, after: Net)
    requires Ideal(net) && WellFormed(after) && after.Keys == net.Keys
    requires forall n :: n in net ==> after[n].succ == net[n].succ && after[n].prev == net[n].prev
    ensures Ideal(after)
  {
    forall n | n in after ensures IdealAt(after, n) {
      assert IdealAt(net, n);
    }
  }

  lemma OneEntry(net: Net, n: Key, i: nat, target: Key, m: Key, k: nat)
    requires WellFormed(net) && n in net && m in net && target in net && 1 <= i < KEY_BITS && k < KEY_BITS
    requires WellFormed(SetFinger(net, n, i, target))
    ensures Finger(SetFinger(net, n, i, target), m, k) == if m == n && k == i then Some(target) else Finger(net, m, k)
  {
    assert WellFormedAt(net, n) && WellFormedAt(net, m);
  }

  /** Whatever a list of repairs covers is correct in the end, in whatever order and however
      often the entries are repaired. */
  lemma {:induction false} RepairsReach(net: Net, f: Key, steps: seq<Step>, m: Key, k: nat)
    requires Ideal(net) && Inv(net, f) && m in net && k < KEY_BITS
    requires forall j :: 0 <= j < |steps| ==> Proper(steps[j])
    ensures Ideal(Exec(net, f, steps)) && Exec(net, f, steps).Keys == net.Keys
    ensures FingerCorrect(net, m, k) || Covers(steps, m, k) ==> FingerCorrect(Exec(net, f, steps), m, k)
    decreases |steps|
  {
    hide FingerCorrect, Inv, Proper, IdealAt, WellFormedAt, Apply, Repairs;
    if steps == [] {
    } else {
      RepairHelps(net, steps[0], m, k);
      StepInv(net, steps[0], f);
      RepairsReach(Apply(net, steps[0]), f, steps[1..], m, k);
      assert forall j :: 0 < j < |steps| ==> steps[j] == steps[1..][j - 1];
    }
  }

  /** Repairing every entry 1 to 255 of every member makes all tables correct. */
  lemma RepairsMakeCorrect(net: Net, f: Key, steps: seq<Step>)
    requires Ideal(net) && Inv(net, f)
    requires forall j :: 0 <= j < |steps| ==> Proper(steps[j])
    requires forall n, i {:trigger Covers(steps, n, i)} :: n in net && 1 <= i < KEY_BITS ==> Covers(steps, n, i)
    ensures FingersCorrect(Exec(net, f, steps)) && Exec(net, f, steps).Keys == net.Keys
  {
    hide FingerCorrect, Proper, IdealAt, WellFormedAt, Covers;
    RepairsReach(net, f, steps, f, 0);
    var after := Exec(net, f, steps);
    forall n, i: nat | n in after && i < KEY_BITS ensures FingerCorrect(after, n, i) {
      RepairsReach(net, f, steps, n, i);
      FirstIsCorrect(net, n);
      assert i > 0 ==> Covers(steps, n, i);
    }
  }

  /** The repairs of entries 1 to top - 1 of n. */
  lemma {:induction false} RepairsOf(n: Key, top: nat) returns (steps: seq<Step>)
    requires 1 <= top <= KEY_BITS
    ensures forall j :: 0 <= j < |steps| ==> Proper(steps[j])
    ensures forall i :: 1 <= i < top ==> Covers(steps, n, i)
    decreases top
  {
    if top == 1 {
      steps := [];
    } else {
      Pow2Below(top - 1);
      var before := RepairsOf(n, top - 1);
      var last := FixFinger(n, top - 1, Advance(n, Pow2(top - 1)));
      steps := before + [last];
      MoreCover(before, [last]);
      assert Repairs(steps[|before|], n, top - 1);
    }
  }

  lemma MoreCover(steps: seq<Step>, more: seq<Step>)
    ensures forall n, i {:trigger Covers(steps + more, n, i)} ::
      Covers(steps, n, i) || Covers(more, n, i) ==> Covers(steps + more, n, i)
  {
    forall n, i | Covers(steps, n, i) || Covers(more, n, i) ensures Covers(steps + more, n, i) {
      if Covers(steps, n, i) {
        var j :| 0 <= j < |steps| && Repairs(steps[j], n, i);
        assert Repairs((steps + more)[j], n, i);
      } else {
        var j :| 0 <= j < |more| && Repairs(more[j], n, i);
        assert Repairs((steps + more)[|steps| + j], n, i);
      }
    }
  }

  lemma {:induction false} RepairsOfAll(members: set<Key>) returns (steps: seq<Step>)
    ensures forall j :: 0 <= j < |steps| ==> Proper(steps[j])
    ensures forall n, i {:trigger Covers(steps, n, i)} :: n in members && 1 <= i < KEY_BITS ==> Covers(steps, n, i)
    decreases members
  {
    if members == {} {
      steps := [];
    } else {
      var n :| n in members;
      var before := RepairsOfAll(members - {n});
      var more := RepairsOf(n, KEY_BITS);
      steps := before + more;
      MoreCover(before, more);
    }
  }

  /** A ring with correct tables over any members arises by joins, stabilization and repairs. */
  lemma CorrectExists(members: set<Key>) returns (net: Net)
    requires members != {}
    ensures FingersCorrect(net) && net.Keys == members
  {
    var ideal := IdealExists(members);
    var f :| f in members;
    IdealIsInv(ideal, f);
    var steps := RepairsOfAll(members);
    RepairsMakeCorrect(ideal, f, steps);
    net := Exec(ideal, f, steps);
  }

  // ---------------------------------------------------------------- what they are good for

  /** A correct finger i other than n itself lies at least 2^i away. */
  lemma FingerReach(net: Net, n: Key, i: nat)
    requires FingersCorrect(net) && n in net && i < KEY_BITS
    ensures Finger(net, n, i).Some? && Finger(net, n, i).value in net
    ensures Finger(net, n, i).value != n ==> Gap(n, Finger(net, n, i).value) >= Pow2(i)
    ensures forall p :: p in net && Gap(n, p) >= Pow2(i) ==> Pow2(i) <= Gap(n, Finger(net, n, i).value) <= Gap(n, p)
  {
    Pow2Below(i);
    assert FingerCorrect(net, n, i);
    var start := Advance(n, Pow2(i));
    var x := Finger(net, n, i).value;
    assert Gap(start, x) <= Gap(start, n);
    forall p | p in net && Gap(n, p) >= Pow2(i) ensures Pow2(i) <= Gap(n, x) <= Gap(n, p) {
      assert Gap(start, x) <= Gap(start, p);
    }
  }

  /** The scan returns the highest usable entry. */
  lemma {:induction false} ScanIsHighest(finger: seq<Option<Key>>, self: Key, id: Key, top: nat, i: nat)
    requires i < top <= |finger| && finger[i].Some? && Inside(finger[i].value, self, id)
    ensures exists j: nat :: i <= j < top && finger[j] == ScanFingers(finger, self, id, top)
    ensures ScanFingers(finger, self, id, top).Some?
    decreases top
  {
    if finger[top - 1].Some? && Inside(finger[top - 1].value, self, id) {
    } else {
      ScanIsHighest(finger, self, id, top - 1, i);
    }
  }

  /** The finger used is entry i or a higher one, for every usable entry i. */
  lemma ClosestIsHighest(net: Net, n: Key, id: Key, i: nat)
    requires WellFormed(net) && n in net && i < KEY_BITS
    requires Finger(net, n, i).Some? && Inside(Finger(net, n, i).value, n, id)
    ensures ClosestPreceding(net, n, id).Some?
    ensures exists j: nat :: i <= j < KEY_BITS && Finger(net, n, j) == ClosestPreceding(net, n, id)
  {
    assert WellFormedAt(net, n);
    var finger := net[n].finger;
    if i > 0 {
      ScanIsHighest(finger, n, id, KEY_BITS - 1, i - 1);
      var j: nat :| i - 1 <= j < KEY_BITS - 1 && finger[j] == ScanFingers(finger, n, id, KEY_BITS - 1);
      assert Finger(net, n, j + 1) == ClosestPreceding(net, n, id);
    } else {
      var r := ScanFingers(finger, n, id, KEY_BITS - 1);
      if r.Some? {
        var j: nat :| j < KEY_BITS - 1 && finger[j] == r;
        assert Finger(net, n, j + 1) == r;
      } else {
        assert Finger(net, n, 0) == ClosestPreceding(net, n, id);
      }
    }
  }

  /** When the lookup for id has not arrived at n, the last member p before id lies beyond
      the successor of n, and so does every finger in (n, id) lie between n and p. */
  lemma NotYetThere(net: Net, n: Key, id: Key, p: Key, x: Key)
    requires Ideal(net) && n in net && p in net && x in net && n != id
    requires forall m :: m in net ==> !Inside(m, p, id)
    requires !InsideOrEnd(id, n, Succ(net, n))
    ensures Gap(n, p) > 0 && Inside(p, n, id)
    ensures Inside(x, n, id) ==> Gap(n, p) == Gap(n, x) + Gap(x, p)
  {
  }

  /** Each hop shortens the binary length of the distance to the last member p before id. */
  lemma HopHalves(net: Net, n: Key, id: Key, p: Key)
    requires FingersCorrect(net) && n in net && p in net && n != id
    requires forall m :: m in net ==> !Inside(m, p, id)
    requires !InsideOrEnd(id, n, Succ(net, n))
    ensures ClosestPreceding(net, n, id).Some?
    ensures BitLength(Gap(ClosestPreceding(net, n, id).value, p)) < BitLength(Gap(n, p))
  {
    NotYetThere(net, n, id, p, n);
    var i := TopFinger(net, n, id, p);
    ClosestIsHighest(net, n, id, i);
    var x := ClosestPreceding(net, n, id).value;
    var j: nat :| i <= j < KEY_BITS && Finger(net, n, j) == Some(x);
    NotYetThere(net, n, id, p, x);
    FingerReach(net, n, j);
    Pow2Grows(i, j);
    BitLengthBelow(Gap(x, p), i);
  }

  /** The entry that matches the top bit of the distance to p is usable. */
  lemma TopFinger(net: Net, n: Key, id: Key, p: Key) returns (i: nat)
    requires FingersCorrect(net) && n in net && p in net && n != id
    requires Gap(n, p) > 0 && Inside(p, n, id)
    ensures i < KEY_BITS && BitLength(Gap(n, p)) == i + 1 && Gap(n, p) < 2 * Pow2(i)
    ensures Finger(net, n, i).Some? && Inside(Finger(net, n, i).value, n, id)
  {
    var d := Gap(n, p);
    CircleSize();
    BitLengthBounds(d);
    BitLengthBelow(d, KEY_BITS);
    i := BitLength(d) - 1;
    FingerReach(net, n, i);
  }

  /** How many times node_find_prev moves on before it stops. */
  ghost function Hops(net: Net, n: Key, id: Key): nat
    requires WellFormed(net) && n in net && n != id
    decreases Dist(n, id)
  {
    if InsideOrEnd(id, n, Succ(net, n)) then 0
    else 1 + Hops(net, ClosestPreceding(net, n, id).value, id)
  }

  lemma {:induction false} HopsWithinBitLength(net: Net, n: Key, id: Key, p: Key)
    requires FingersCorrect(net) && n in net && p in net && n != id
    requires forall m :: m in net ==> !Inside(m, p, id)
    ensures Hops(net, n, id) <= BitLength(Gap(n, p))
    decreases Dist(n, id)
  {
    if InsideOrEnd(id, n, Succ(net, n)) {
    } else {
      HopHalves(net, n, id, p);
      HopsWithinBitLength(net, ClosestPreceding(net, n, id).value, id, p);
    }
  }

  /** A lookup with correct finger tables takes at most 256 hops. */
  lemma LogarithmicLookup(net: Net, n: Key, id: Key)
    requires FingersCorrect(net) && n in net && n != id
    ensures Hops(net, n, id) <= BitLength(Gap(n, LookupPrev(net, n, id))) <= KEY_BITS
  {
    var p := LookupPrev(net, n, id);
    FindPrevIsPrev(net, n, id);
    HopsWithinBitLength(net, n, id, p);
    CircleSize();
    BitLengthBelow(Gap(n, p), KEY_BITS);
  }
}

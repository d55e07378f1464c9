/** Keys as the program stores them: 32 bytes, most significant first. */
module KeyBytes {
  import opened Circle

  const KEY_SIZE := 32

  type Byte = b: int | 0 <= b < 256

  type Bytes = seq<Byte>

  ghost function Zeros(n: nat): (z: seq<Byte>)
    ensures |z| == n && forall i :: 0 <= i < n ==> z[i] == 0
  {
    seq(n, i => 0)
  }

  function Pow256(k: nat): (p: nat)
    ensures p >= 1
  {
    if k == 0 then 1 else 256 * Pow256(k - 1)
  }

  /** The number that bytes i and up spell. */
  function Suffix(s: seq<Byte>, i: nat): (v: nat)
    requires i <= |s|
    ensures v < Pow256(|s| - i)
    decreases |s| - i
  {
    if i == |s| then 0
    else
      var v := s[i] * Pow256(|s| - i - 1) + Suffix(s, i + 1);
      TopByteFits(s[i], Pow256(|s| - i - 1), Suffix(s, i + 1));
      v
  }

  lemma TopByteFits(b: Byte, p: nat, rest: nat)
    requires rest < p
    ensures 0 <= b * p + rest < 256 * p
  {
  }

  lemma {:induction false} Pow256Add(j: nat, k: nat)
    ensures Pow256(j + k) == Pow256(j) * Pow256(k)
    decreases k
  {
    if k == 0 {
    } else {
      Pow256Add(j, k - 1);
    }
  }

  /** Five doublings; k stays symbolic so that nothing is unrolled. */
  lemma CircleSizeFrom(k: nat)
    requires Pow256(k) == 256
    ensures Pow256(32 * k) == SIZE
  {
    Pow256Add(k, k);
    Pow256Add(2 * k, 2 * k);
    Pow256Add(4 * k, 4 * k);
    Pow256Add(8 * k, 8 * k);
    Pow256Add(16 * k, 16 * k);
  }

  lemma CircleSize()
    ensures Pow256(KEY_SIZE) == SIZE
  {
    CircleSizeFrom(1);
  }

  function Value(s: seq<Byte>): Key
    requires |s| == KEY_SIZE
  {
    CircleSize();
    Suffix(s, 0)
  }

  // ---------------------------------------------------------------- order

  /** The first byte that differs decides. */
  lemma FirstDifference(s: seq<Byte>, t: seq<Byte>, i: nat)
    requires |s| == |t| && i < |s| && s[i] > t[i]
    ensures Suffix(s, i) > Suffix(t, i)
  {
    var p := Pow256(|s| - i - 1);
    assert s[i] * p >= (t[i] + 1) * p == t[i] * p + p;
  }

  /** The same number, the same bytes. */
  lemma {:induction false} SpelledAlike(s: seq<Byte>, t: seq<Byte>, i: nat)
    requires |s| == |t| && i <= |s| && Suffix(s, i) == Suffix(t, i)
    ensures s[i..] == t[i..]
    decreases |s| - i
  {
    if i == |s| {
    } else {
      if s[i] > t[i] {
        FirstDifference(s, t, i);
      } else if s[i] < t[i] {
        FirstDifference(t, s, i);
      }
      SpelledAlike(s, t, i + 1);
    }
  }

  lemma ValueIsInjective(s: seq<Byte>, t: seq<Byte>)
    requires |s| == KEY_SIZE == |t|
    ensures Value(s) == Value(t) <==> s == t
  {
    if Value(s) == Value(t) {
      SpelledAlike(s, t, 0);
      assert s[0..] == s && t[0..] == t;
    }
  }

  /** -1, 0 or 1 as key1 is below, equal to or above key2 as a number. */
  method KeyCmp(key1: array<Byte>, key2: array<Byte>) returns (res: int)
    requires key1.Length == KEY_SIZE && key2.Length == KEY_SIZE
    ensures res in {-1, 0, 1}
    ensures res < 0 <==> Value(key1[..]) < Value(key2[..])
    ensures res == 0 <==> Value(key1[..]) == Value(key2[..])
    ensures res == 0 <==> key1[..] == key2[..]
    ensures res != 0 ==> exists i :: 0 <= i < KEY_SIZE && key1[..i] == key2[..i] && (res < 0 <==> key1[i] < key2[i])
  {
    var i := 0;
    while i < KEY_SIZE
      invariant 0 <= i <= KEY_SIZE
      invariant key1[..i] == key2[..i]
      invariant Value(key1[..]) - Value(key2[..]) == Suffix(key1[..], i) - Suffix(key2[..], i)
    {
      if key1[i] > key2[i] {
        FirstDifference(key1[..], key2[..], i);
        return 1;
      }
      if key1[i] < key2[i] {
        FirstDifference(key2[..], key1[..], i);
        return -1;
      }
      i := i + 1;
    }
    assert key1[..] == key1[..KEY_SIZE] && key2[..] == key2[..KEY_SIZE];
    return 0;
  }

  /** Membership in the arc from min to max, with or without either end, by distances. */
  ghost predicate InArc(key: Key, min: Key, minEq: bool, max: Key, maxEq: bool) {
    var d := if minEq then Gap(min, key) else Dist(min, key);
    if maxEq then d <= Dist(min, max) else d < Dist(min, max)
  }

  /** The open arc, with those of its ends that are asked for. */
  lemma ArcWithEnds(key: Key, min: Key, minEq: bool, max: Key, maxEq: bool)
    ensures InArc(key, min, minEq, max, maxEq) <==>
      (Inside(key, min, max) || (minEq && key == min) || (maxEq && key == max))
  {
  }

  method KeyIn(key: array<Byte>, min: array<Byte>, minEq: bool, max: array<Byte>, maxEq: bool) returns (res: bool)
    requires key.Length == KEY_SIZE && min.Length == KEY_SIZE && max.Length == KEY_SIZE
    ensures res <==> InArc(Value(key[..]), Value(min[..]), minEq, Value(max[..]), maxEq)
    ensures res <==>
      (Inside(Value(key[..]), Value(min[..]), Value(max[..]))
       || (minEq && Value(key[..]) == Value(min[..])) || (maxEq && Value(key[..]) == Value(max[..])))
    ensures !minEq && maxEq ==> (res <==> InsideOrEnd(Value(key[..]), Value(min[..]), Value(max[..])))
  {
    ArcWithEnds(Value(key[..]), Value(min[..]), minEq, Value(max[..]), maxEq);
    var res1 := KeyCmp(min, max);
    var res2 := KeyCmp(min, key);
    var res3 := KeyCmp(key, max);
    if !minEq && !maxEq {
      return (res1 < 0 && (res2 < 0 && res3 < 0)) || (res1 >= 0 && (res2 < 0 || res3 < 0));
    } else if !minEq && maxEq {
      return (res1 < 0 && (res2 < 0 && res3 <= 0)) || (res1 >= 0 && (res2 < 0 || res3 <= 0));
    } else if minEq && !maxEq {
      return (res1 < 0 && (res2 <= 0 && res3 < 0)) || (res1 >= 0 && (res2 <= 0 || res3 < 0));
    } else {
      return (res1 < 0 && (res2 <= 0 && res3 <= 0)) || (res1 >= 0 && (res2 <= 0 || res3 <= 0));
    }
  }

  // ---------------------------------------------------------------- addition

  /** The carry that byte i of the first operand receives before its own turn. */
  ghost function CarryIn(a: seq<Byte>, b: seq<Byte>, i: nat): (c: nat)
    requires |a| == |b| && i < |a|
    ensures c <= 1
    decreases |a| - i, 0
  {
    if i + 1 == |a| then 0 else (Held(a, b, i + 1) + b[i + 1]) / 256
  }

  /** Byte i of the first operand once it holds the carry, which wraps around in one byte. */
  ghost function Held(a: seq<Byte>, b: seq<Byte>, i: nat): (h: Byte)
    requires |a| == |b| && i < |a|
    decreases |a| - i, 1
  {
    (a[i] + CarryIn(a, b, i)) % 256
  }

  ghost function CarryOut(a: seq<Byte>, b: seq<Byte>, i: nat): (c: nat)
    requires |a| == |b| && i < |a|
    ensures c <= 1
  {
    (Held(a, b, i) + b[i]) / 256
  }

  /** What the byte loop leaves in its first operand. */
  ghost function ByteSum(a: seq<Byte>, b: seq<Byte>): (r: seq<Byte>)
    requires |a| == |b|
    ensures |r| == |a| && forall i :: 0 <= i < |r| ==> r[i] == (Held(a, b, i) + b[i]) % 256
  {
    seq(|a|, i requires 0 <= i < |a| => (Held(a, b, i) + b[i]) % 256)
  }

  /** Byte i once it holds its carry, when a key is added to itself. */
  ghost function HeldTwice(a: seq<Byte>, i: nat): (h: Byte)
    requires i < |a|
    decreases |a| - i
  {
    if i + 1 == |a| then a[i] else (a[i] + 2 * HeldTwice(a, i + 1) / 256) % 256
  }

  /** The second operand as it is read when a key is added to itself. */
  ghost function Itself(a: seq<Byte>): (b: seq<Byte>)
    ensures |b| == |a| && forall i :: 0 <= i < |b| ==> b[i] == Held(a, b, i)
  {
    var b := seq(|a|, i requires 0 <= i < |a| => HeldTwice(a, i));
    AllHeld(a, b);
    b
  }

  lemma AllHeld(a: seq<Byte>, b: seq<Byte>)
    requires |b| == |a| && forall i :: 0 <= i < |a| ==> b[i] == HeldTwice(a, i)
    ensures forall i :: 0 <= i < |a| ==> b[i] == Held(a, b, i)
  {
    forall i | 0 <= i < |a| ensures b[i] == Held(a, b, i) {
      HeldIsHeldTwice(a, b, i);
    }
  }

  lemma {:induction false} HeldIsHeldTwice(a: seq<Byte>, b: seq<Byte>, i: nat)
    requires |b| == |a| && i < |a| && forall j :: 0 <= j < |a| ==> b[j] == HeldTwice(a, j)
    ensures Held(a, b, i) == HeldTwice(a, i)
    decreases |a| - i
  {
    if i + 1 == |a| {
    } else {
      HeldIsHeldTwice(a, b, i + 1);
    }
  }

  lemma LastByteHasNoCarry(a: seq<Byte>, b: seq<Byte>)
    requires |a| == |b| > 0
    ensures Held(a, b, |a| - 1) == a[|a| - 1]
  {
  }

  lemma CarryIsPassedOn(a: seq<Byte>, b: seq<Byte>, i: nat)
    requires |a| == |b| && i + 1 < |a|
    ensures Held(a, b, i) == (a[i] + (Held(a, b, i + 1) + b[i + 1]) / 256) % 256
  {
  }

  /** One pass of the loop: adds to byte i, and the carry to the byte before. */
  method AddByte(key: array<Byte>, i: nat, y: Byte)
    requires i < key.Length
    modifies key
    ensures key[i] == (old(key[i]) + y) % 256
    ensures i > 0 ==> key[i - 1] == (old(key[i - 1]) + (old(key[i]) + y) / 256) % 256
    ensures forall j :: 0 <= j < key.Length && j != i && j != i - 1 ==> key[j] == old(key[j])
  {
    var x: int := key[i];
    var total := x + y;
    key[i] := total % 256;
    if i > 0 {
      var above: int := key[i - 1];
      key[i - 1] := (above + total / 256) % 256;
    }
  }

  /** key1 += key2, byte by byte from the last one. */
  method KeyAdd(key1: array<Byte>, key2: array<Byte>)
    requires key1.Length == KEY_SIZE && key2.Length == KEY_SIZE
    modifies key1
    ensures key1[..] == ByteSum(old(key1[..]), if key1 == key2 then Itself(old(key1[..])) else key2[..])
  {
    hide Held, Itself, CarryIn, ByteSum;
    ghost var a := key1[..];
    ghost var b := if key1 == key2 then Itself(a) else key2[..];
    LastByteHasNoCarry(a, b);
    var i := KEY_SIZE - 1;
    while i >= 0
      invariant -1 <= i < KEY_SIZE
      invariant forall j :: i < j < KEY_SIZE ==> key1[j] == (Held(a, b, j) + b[j]) % 256
      invariant i >= 0 ==> key1[i] == Held(a, b, i)
      invariant forall j :: 0 <= j < i ==> key1[j] == a[j]
      invariant key1 != key2 ==> key2[..] == b
    {
      if i > 0 {
        CarryIsPassedOn(a, b, i - 1);
      }
      AddByte(key1, i, key2[i]);
      i := i - 1;
    }
  }

  /** The carry into byte i disappears, because the byte already holds 0xFF. */
  ghost predicate Dropped(a: seq<Byte>, b: seq<Byte>, i: nat)
    requires |a| == |b| && i < |a|
  {
    CarryIn(a, b, i) == 1 && a[i] == 0xFF
  }

  /** What the carries dropped at bytes i and up were worth. */
  ghost function Lost(a: seq<Byte>, b: seq<Byte>, i: nat): (v: nat)
    requires |a| == |b| && i <= |a|
    decreases |a| - i
  {
    if i == |a| then 0
    else (if Dropped(a, b, i) then Pow256(|a| - i) else 0) + Lost(a, b, i + 1)
  }

  /** One byte of the sum, scaled by its place value p, with the carry c it got, the one it
      passes on and the one it dropped. */
  lemma OneByte(x: Byte, y: Byte, c: nat, p: nat)
    requires c <= 1
    ensures var held := (x + c) % 256;
      var drop := if c == 1 && x == 0xFF then 1 else 0;
      x * p + y * p + c * p == ((held + y) % 256) * p + ((held + y) / 256) * (256 * p) + drop * (256 * p)
  {
    var held := (x + c) % 256;
    var drop := if c == 1 && x == 0xFF then 1 else 0;
    var carry := (held + y) / 256;
    Scale(x, y, c, (held + y) % 256, carry, drop, p);
  }

  lemma Scale(x: nat, y: nat, c: nat, r: nat, carry: nat, drop: nat, p: nat)
    requires x + y + c == r + 256 * carry + 256 * drop
    ensures x * p + y * p + c * p == r * p + carry * (256 * p) + drop * (256 * p)
  {
  }

  lemma {:induction false} SumOfSuffixes(a: seq<Byte>, b: seq<Byte>, i: nat)
    requires |a| == |b| && i < |a|
    ensures Suffix(ByteSum(a, b), i) + Lost(a, b, i) + CarryOut(a, b, i) * Pow256(|a| - i)
         == Suffix(a, i) + Suffix(b, i)
    decreases |a| - i
  {
    var p := Pow256(|a| - i - 1);
    OneByte(a[i], b[i], CarryIn(a, b, i), p);
    if i + 1 == |a| {
    } else {
      SumOfSuffixes(a, b, i + 1);
    }
  }

  lemma {:induction false} LostBound(a: seq<Byte>, b: seq<Byte>, i: nat)
    requires |a| == |b| && i <= |a|
    ensures Lost(a, b, i) < 2 * Pow256(|a| - i)
    ensures Lost(a, b, i) == 0 <==> forall j :: i <= j < |a| ==> !Dropped(a, b, j)
    decreases |a| - i
  {
    if i == |a| {
    } else {
      LostBound(a, b, i + 1);
    }
  }

  lemma Reduce(v: int, sum: int, turns: int, lost: int)
    requires 0 <= v < SIZE && 0 <= turns <= 2 && v + turns * SIZE == sum - lost && 0 <= lost < SIZE
    ensures (sum - lost) % SIZE == v
    ensures v == sum % SIZE <==> lost == 0
  {
  }

  lemma WholeTurns(carry: nat, dropped: bool, size: nat)
    requires carry <= 1
    ensures (carry + if dropped then 1 else 0) * size == carry * size + if dropped then size else 0
  {
  }

  /** The whole turns that the sum makes. */
  ghost function Turns(a: seq<Byte>, b: seq<Byte>): (t: nat)
    requires |a| == |b| && |a| > 0
    ensures t <= 2
  {
    CarryOut(a, b, 0) + if Dropped(a, b, 0) then 1 else 0
  }

  lemma WholeSum(a: seq<Byte>, b: seq<Byte>, size: nat)
    requires |a| == |b| && |a| > 0 && size == Pow256(|a|)
    ensures Suffix(ByteSum(a, b), 0) + Turns(a, b) * size == Suffix(a, 0) + Suffix(b, 0) - Lost(a, b, 1)
  {
    SumOfSuffixes(a, b, 0);
    WholeTurns(CarryOut(a, b, 0), Dropped(a, b, 0), size);
  }

  lemma LostFits(a: seq<Byte>, b: seq<Byte>, size: nat)
    requires |a| == |b| && |a| > 0 && size == Pow256(|a|)
    ensures Lost(a, b, 1) < size
  {
    LostBound(a, b, 1);
  }

  /** The program's sum falls short of the true one, modulo 2^256, by exactly what was lost at
      bytes 1 to 31, so it is right exactly when no carry met 0xFF there. */
  lemma KeyAddExact(a: seq<Byte>, b: seq<Byte>)
    requires |a| == KEY_SIZE == |b|
    ensures 0 <= Lost(a, b, 1) < SIZE
    ensures Value(ByteSum(a, b)) == (Value(a) + Value(b) - Lost(a, b, 1)) % SIZE
    ensures Value(ByteSum(a, b)) == (Value(a) + Value(b)) % SIZE
       <==> forall j :: 1 <= j < KEY_SIZE ==> !Dropped(a, b, j)
  {
    hide Suffix, Lost, Held, CarryIn, CarryOut, Dropped, ByteSum, Pow256, Turns;
    var v, sum, turns, lost := Value(ByteSum(a, b)), Value(a) + Value(b), Turns(a, b), Lost(a, b, 1);
    assert v + turns * SIZE == sum - lost && lost < SIZE by {
      CircleSize();
      WholeSum(a, b, SIZE);
      LostFits(a, b, SIZE);
    }
    Reduce(v, sum, turns, lost);
    LostBound(a, b, 1);
  }

  // ---------------------------------------------------------------- the step of the first finger

  /** The bytes that key_add_int makes of a number: it shifts by single bits. */
  ghost function Pieces(x: nat): (b: seq<Byte>)
    ensures |b| == 4
  {
    [x / 8 % 256, x / 4 % 256, x / 2 % 256, x % 256]
  }

  function Shifted(x: nat, places: nat): nat {
    if places == 0 then x else Shifted(x, places - 1) / 2
  }

  lemma ShiftedIsPiece(x: nat, i: nat)
    requires i < 4
    ensures Shifted(x, 3 - i) % 256 == Pieces(x)[i]
  {
    assert Shifted(x, 1) == x / 2;
    assert Shifted(x, 2) == x / 2 / 2;
    assert Shifted(x, 3) == x / 2 / 2 / 2;
  }

  /** Adds to the first four bytes of the key, which are the most significant ones. */
  method KeyAddInt(key: array<Byte>, x: nat)
    requires key.Length == KEY_SIZE && x < 0x1_0000_0000
    modifies key
    ensures key[..] == ByteSum(old(key[..4]), Pieces(x)) + old(key[4..])
  {
    hide Held, CarryIn, Pieces, Shifted;
    ghost var a, b := key[..4], Pieces(x);
    LastByteHasNoCarry(a, b);
    var i := 3;
    while i >= 0
      invariant -1 <= i < 4
      invariant forall j :: i < j < 4 ==> key[j] == (Held(a, b, j) + b[j]) % 256
      invariant i >= 0 ==> key[i] == Held(a, b, i)
      invariant forall j :: 0 <= j < i ==> key[j] == a[j]
      invariant forall j :: 4 <= j < KEY_SIZE ==> key[j] == old(key[j])
    {
      ShiftedIsPiece(x, i);
      if i > 0 {
        CarryIsPassedOn(a, b, i - 1);
      }
      AddByte(key, i, Shifted(x, 3 - i) % 256);
      i := i - 1;
    }
    assert key[..4] == ByteSum(a, b) && key[4..] == old(key[4..]);
    assert key[..] == key[..4] + key[4..];
  }

  /** What joining counts as one: key_add_int puts a 1 into byte 3, which is worth 2^224. */
  ghost function FirstStep(): (b: seq<Byte>)
    ensures |b| == KEY_SIZE && b[3] == 1 && forall i :: 0 <= i < KEY_SIZE && i != 3 ==> b[i] == 0
  {
    Zeros(KEY_SIZE)[3 := 1]
  }

  lemma FirstStepIsAdded()
    ensures ByteSum(Zeros(KEY_SIZE)[..4], Pieces(1)) + Zeros(KEY_SIZE)[4..] == FirstStep()
  {
    var a, b := Zeros(KEY_SIZE)[..4], Pieces(1);
    assert b == [0, 0, 0, 1];
    LastByteHasNoCarry(a, b);
    CarryIsPassedOn(a, b, 2);
    CarryIsPassedOn(a, b, 1);
    CarryIsPassedOn(a, b, 0);
    assert ByteSum(a, b) == b;
  }

  /** The bytes of a key from byte 3 on, and what byte 3 alone is worth. */
  lemma FirstStepValue(k: nat)
    requires k == 28
    ensures Value(FirstStep()) == Pow256(k)
  {
    hide Pow256;
    ZerosAreWorthNothing(FirstStep(), 4);
    var p := Pow256(k);
    assert Suffix(FirstStep(), 3) == 1 * p;
    assert Suffix(FirstStep(), 2) == 0 * Pow256(29) + p;
    assert Suffix(FirstStep(), 1) == 0 * Pow256(30) + p;
    assert Suffix(FirstStep(), 0) == 0 * Pow256(31) + p;
  }

  lemma {:induction false} ZerosAreWorthNothing(s: seq<Byte>, i: nat)
    requires i <= |s| && forall j :: i <= j < |s| ==> s[j] == 0
    ensures Suffix(s, i) == 0
    decreases |s| - i
  {
    if i == |s| {
    } else {
      ZerosAreWorthNothing(s, i + 1);
    }
  }

  lemma {:induction false} NoCarryBehind(a: seq<Byte>, b: seq<Byte>, i: nat)
    requires |a| == |b| && i < |a| && forall j :: i < j < |b| ==> b[j] == 0
    ensures CarryIn(a, b, i) == 0
    decreases |a| - i
  {
    if i + 1 == |a| {
    } else {
      NoCarryBehind(a, b, i + 1);
    }
  }

  lemma {:induction false} NoCarryBefore(a: seq<Byte>, i: nat)
    requires |a| == KEY_SIZE && i < 2
    ensures CarryIn(a, FirstStep(), i) == 0
    decreases 2 - i
  {
    if i == 1 {
      FirstCarries(a);
    } else {
      NoCarryBefore(a, i + 1);
    }
  }

  /** Only byte 3 overflows, and its carry meets byte 2. */
  lemma FirstCarries(a: seq<Byte>)
    requires |a| == KEY_SIZE
    ensures forall i :: 3 <= i < KEY_SIZE ==> CarryIn(a, FirstStep(), i) == 0
    ensures CarryIn(a, FirstStep(), 2) == (if a[3] == 0xFF then 1 else 0)
    ensures CarryIn(a, FirstStep(), 1) == 0
  {
    forall i | 3 <= i < KEY_SIZE ensures CarryIn(a, FirstStep(), i) == 0 {
      NoCarryBehind(a, FirstStep(), i);
    }
    assert Held(a, FirstStep(), 2) + FirstStep()[2] < 256;
    assert Held(a, FirstStep(), 3) == a[3];
  }

  /** The addition that lays out the first finger goes wrong exactly for the ids whose bytes 2 and
      3 are both 0xFF. */
  lemma FirstFingerExact(id: seq<Byte>)
    requires |id| == KEY_SIZE
    ensures Dropped(id, FirstStep(), 2) <==> id[2] == id[3] == 0xFF
    ensures Value(ByteSum(id, FirstStep())) == (Value(id) + Pow256(28)) % SIZE
       <==> !(id[2] == id[3] == 0xFF)
  {
    hide Held, ByteSum, Lost, FirstStep, Value, Pow256;
    FirstStepValue(28);
    KeyAddExact(id, FirstStep());
    FirstCarries(id);
    forall i | 0 <= i < KEY_SIZE && i != 2 ensures !Dropped(id, FirstStep(), i) {
      if i < 2 {
        NoCarryBefore(id, i);
      }
    }
  }
}

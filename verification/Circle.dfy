/** The identifier circle: keys are the numbers below 2^256, read clockwise. */
module Circle {
  const KEY_BITS := 256
  const SIZE: int := 0x1_0000000000000000_0000000000000000_0000000000000000_0000000000000000

  type Key = k: int | 0 <= k < SIZE

  datatype Option<+T> = None | Some(value: T)

  /** Steps clockwise from a to b; none when they are the same key. */
  function Gap(a: Key, b: Key): (d: int)
    ensures 0 <= d < SIZE
  {
    if a <= b then b - a else b - a + SIZE
  }

  /** Steps clockwise from a to b; a full turn when they are the same key. */
  function Dist(a: Key, b: Key): (d: int)
    ensures 1 <= d <= SIZE
    ensures d == SIZE <==> a == b
    ensures a != b ==> d == Gap(a, b)
  {
    if a < b then b - a else b - a + SIZE
  }

  /** key in (min, max) */
  predicate Inside(key: Key, min: Key, max: Key) {
    Dist(min, key) < Dist(min, max)
  }

  /** key in (min, max] */
  predicate InsideOrEnd(key: Key, min: Key, max: Key) {
    Dist(min, key) <= Dist(min, max)
  }

  /** The key d steps clockwise from a. */
  function Advance(a: Key, d: nat): (k: Key)
    requires d < SIZE
    ensures Gap(a, k) == d
  {
    if a + d < SIZE then a + d else a + d - SIZE
  }

  /** For a != b the arcs (a, b] and (b, a] partition the circle. */
  lemma ArcsPartition(a: Key, b: Key, key: Key)
    requires a != b
    ensures InsideOrEnd(key, a, b) <==> !InsideOrEnd(key, b, a)
  {
  }

  /** Distances and steps are addition modulo the size of the circle. */
  lemma ModuloSize(a: Key, b: Key, d: nat)
    requires d < SIZE
    ensures Gap(a, b) == (b - a) % SIZE && Dist(a, b) == 1 + (b - a - 1) % SIZE
    ensures Advance(a, d) == (a + d) % SIZE
  {
  }

  /** The arcs by walking: key is one of the keys met on the way from min to max. */
  lemma MetOnTheWay(key: Key, min: Key, max: Key)
    ensures Inside(key, min, max) <==> exists d :: 0 < d < Dist(min, max) && key == Advance(min, d)
    ensures InsideOrEnd(key, min, max) <==> Inside(key, min, max) || key == max
  {
    if Inside(key, min, max) {
      assert key == Advance(min, Dist(min, key));
    }
  }
}

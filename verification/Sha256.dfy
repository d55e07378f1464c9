/** SHA-256: a pure hash of the padded message, and the streaming context that computes it. */
module Sha256 {
  import opened KeyBytes

  type Word = bv32

  const BLOCK := 64
  const TWO_TO_64: nat := 0x1_0000_0000_0000_0000

  // ---------------------------------------------------------------- the compression function

  /** Addition modulo 2^32. */
  function Add(x: Word, y: Word): Word { x + y }

  function RotRight(a: Word, b: bv6): Word
    requires 0 < b < 32
  {
    (a >> b) | (a << (32 - b))
  }

  function Ch(x: Word, y: Word, z: Word): Word { (x & y) ^ (!x & z) }
  function Maj(x: Word, y: Word, z: Word): Word { (x & y) ^ (x & z) ^ (y & z) }
  function Ep0(x: Word): Word { RotRight(x, 2) ^ RotRight(x, 13) ^ RotRight(x, 22) }
  function Ep1(x: Word): Word { RotRight(x, 6) ^ RotRight(x, 11) ^ RotRight(x, 25) }
  function Sig0(x: Word): Word { RotRight(x, 7) ^ RotRight(x, 18) ^ (x >> (3 as bv6)) }
  function Sig1(x: Word): Word { RotRight(x, 17) ^ RotRight(x, 19) ^ (x >> (10 as bv6)) }

  const K: seq<Word> :=
    [0x428a2f98, 0x71374491, 0xb5c0fbcf, 0xe9b5dba5, 0x3956c25b, 0x59f111f1, 0x923f82a4, 0xab1c5ed5]
    + [0xd807aa98, 0x12835b01, 0x243185be, 0x550c7dc3, 0x72be5d74, 0x80deb1fe, 0x9bdc06a7, 0xc19bf174]
    + [0xe49b69c1, 0xefbe4786, 0x0fc19dc6, 0x240ca1cc, 0x2de92c6f, 0x4a7484aa, 0x5cb0a9dc, 0x76f988da]
    + [0x983e5152, 0xa831c66d, 0xb00327c8, 0xbf597fc7, 0xc6e00bf3, 0xd5a79147, 0x06ca6351, 0x14292967]
    + [0x27b70a85, 0x2e1b2138, 0x4d2c6dfc, 0x53380d13, 0x650a7354, 0x766a0abb, 0x81c2c92e, 0x92722c85]
    + [0xa2bfe8a1, 0xa81a664b, 0xc24b8b70, 0xc76c51a3, 0xd192e819, 0xd6990624, 0xf40e3585, 0x106aa070]
    + [0x19a4c116, 0x1e376c08, 0x2748774c, 0x34b0bcb5, 0x391c0cb3, 0x4ed8aa4a, 0x5b9cca4f, 0x682e6ff3]
    + [0x748f82ee, 0x78a5636f, 0x84c87814, 0x8cc70208, 0x90befffa, 0xa4506ceb, 0xbef9a3f7, 0xc67178f2]

  /** The eight working variables, which are also the chaining value. */
  datatype Chain = Chain(a: Word, b: Word, c: Word, d: Word, e: Word, f: Word, g: Word, h: Word)

  const INITIAL := Chain(0x6a09e667, 0xbb67ae85, 0x3c6ef372, 0xa54ff53a, 0x510e527f, 0x9b05688c, 0x1f83d9ab, 0x5be0cd19)

  function BigEndianWord(b0: Byte, b1: Byte, b2: Byte, b3: Byte): Word {
    ((b0 as Word) << (24 as bv6)) | ((b1 as Word) << (16 as bv6)) | ((b2 as Word) << (8 as bv6)) | (b3 as Word)
  }

  function NextWord(w: seq<Word>): Word
    requires |w| >= 16
  {
    var t := |w|;
    Add(Add(Add(Sig1(w[t - 2]), w[t - 7]), Sig0(w[t - 15])), w[t - 16])
  }

  /** The first t words of the message schedule (section 6.2.2 of FIPS 180-4, step 1). */
  ghost function Schedule(block: seq<Byte>, t: nat): (w: seq<Word>)
    requires |block| == BLOCK && t <= 64
    ensures |w| == t
    decreases t, block
  {
    if t == 0 then []
    else
      var w := Schedule(block, t - 1);
      w + [if t <= 16 then BigEndianWord(block[4 * t - 4], block[4 * t - 3], block[4 * t - 2], block[4 * t - 1])
           else NextWord(w)]
  }

  lemma LaterStep(block: seq<Byte>, t: nat)
    requires |block| == BLOCK && 16 <= t < 64
    ensures Schedule(block, t + 1) == Schedule(block, t) + [NextWord(Schedule(block, t))]
  {
    hide NextWord;
  }

  lemma ScheduleStep(block: seq<Byte>, t: nat)
    requires |block| == BLOCK && t < 16
    ensures Schedule(block, t + 1) == Schedule(block, t)
      + [BigEndianWord(block[4 * t], block[4 * t + 1], block[4 * t + 2], block[4 * t + 3])]
  {
  }

  function OneRound(v: Chain, k: Word, w: Word): Chain {
    var t1 := Add(Add(Add(Add(v.h, Ep1(v.e)), Ch(v.e, v.f, v.g)), k), w);
    var t2 := Add(Ep0(v.a), Maj(v.a, v.b, v.c));
    Chain(Add(t1, t2), v.a, v.b, v.c, Add(v.d, t1), v.e, v.f, v.g)
  }

  /** The working variables after t rounds with the constants k (step 3). */
  ghost function RoundsUpTo(start: Chain, k: seq<Word>, w: seq<Word>, t: nat): Chain
    requires |k| == 64 == |w| && t <= 64
    decreases t, w
  {
    if t == 0 then start
    else OneRound(RoundsUpTo(start, k, w, t - 1), k[t - 1], w[t - 1])
  }

  function Plus(x: Chain, y: Chain): Chain {
    Chain(Add(x.a, y.a), Add(x.b, y.b), Add(x.c, y.c), Add(x.d, y.d),
          Add(x.e, y.e), Add(x.f, y.f), Add(x.g, y.g), Add(x.h, y.h))
  }

  ghost function Compress(start: Chain, block: seq<Byte>): Chain
    requires |block| == BLOCK
  {
    Plus(start, RoundsUpTo(start, K, Schedule(block, 64), 64))
  }

  // ---------------------------------------------------------------- the hash of a message

  function ByteOf(n: int): Byte {
    n % 256
  }

  /** The 64-bit length field, most significant byte first. */
  function LengthField(bits: nat): (r: seq<Byte>)
    ensures |r| == 8
  {
    [ByteOf(bits / 0x1_0000_0000_0000_00), ByteOf(bits / 0x1_0000_0000_0000), ByteOf(bits / 0x1_0000_0000_00),
     ByteOf(bits / 0x1_0000_0000), ByteOf(bits / 0x1_0000_00),
     ByteOf(bits / 0x1_0000), ByteOf(bits / 0x1_00), ByteOf(bits)]
  }

  ghost function ZeroCount(n: nat): (k: nat)
    ensures k < BLOCK && (n + 1 + k + 8) % BLOCK == 0
  {
    if n % BLOCK < 56 then 55 - n % BLOCK else 119 - n % BLOCK
  }

  /** Padding to a multiple of 64 bytes that ends in the given length field. */
  ghost function PaddedWith(msg: seq<Byte>, field: seq<Byte>): (p: seq<Byte>)
    requires |field| == 8
    ensures |p| % BLOCK == 0
  {
    msg + [0x80] + Zeros(ZeroCount(|msg|)) + field
  }

  /** Section 5.1.1 of FIPS 180-4, with the length in bits modulo 2^64. */
  ghost function Padded(msg: seq<Byte>): (p: seq<Byte>)
    ensures |p| % BLOCK == 0
  {
    PaddedWith(msg, LengthField(8 * |msg| % TWO_TO_64))
  }

  type Compression = (Chain, seq<Byte>) -> Chain

  /** f is the SHA-256 compression function on whole blocks. */
  ghost predicate IsCompress(f: Compression) {
    forall v, block {:trigger Compress(v, block)} :: |block| == BLOCK ==> f(v, block) == Compress(v, block)
  }

  /** Folds the compression function f over the blocks of data. */
  ghost function HashBlocks(f: Compression, start: Chain, data: seq<Byte>): Chain
    requires |data| % BLOCK == 0
    decreases |data|
  {
    if data == [] then start
    else HashBlocks(f, f(start, data[..BLOCK]), data[BLOCK..])
  }

  function WordByte(w: Word, shift: bv6): Byte
    requires shift <= 24
  {
    ((w >> shift) & 0xff) as int
  }

  function WordBytes(w: Word): (r: seq<Byte>)
    ensures |r| == 4
  {
    [WordByte(w, 24), WordByte(w, 16), WordByte(w, 8), WordByte(w, 0)]
  }

  function Digest(v: Chain): (r: seq<Byte>)
    ensures |r| == 32
  {
    WordBytes(v.a) + WordBytes(v.b) + WordBytes(v.c) + WordBytes(v.d)
    + WordBytes(v.e) + WordBytes(v.f) + WordBytes(v.g) + WordBytes(v.h)
  }

  /** Byte i of each of the eight words. */
  function Column(v: Chain, i: nat): (c: seq<Byte>)
    requires i < 4
    ensures |c| == 8
  {
    [WordBytes(v.a)[i], WordBytes(v.b)[i], WordBytes(v.c)[i], WordBytes(v.d)[i],
     WordBytes(v.e)[i], WordBytes(v.f)[i], WordBytes(v.g)[i], WordBytes(v.h)[i]]
  }

  lemma DigestColumn(v: Chain, i: nat, w: nat)
    requires i < 4 && w < 8
    ensures Digest(v)[4 * w + i] == Column(v, i)[w]
  {
    PiecesAt(WordBytes(v.a), WordBytes(v.b), WordBytes(v.c), WordBytes(v.d),
             WordBytes(v.e), WordBytes(v.f), WordBytes(v.g), WordBytes(v.h), i, w);
  }

  lemma PiecesAt(a: seq<Byte>, b: seq<Byte>, c: seq<Byte>, d: seq<Byte>,
                 e: seq<Byte>, f: seq<Byte>, g: seq<Byte>, h: seq<Byte>, i: nat, w: nat)
    requires |a| == |b| == |c| == |d| == |e| == |f| == |g| == |h| == 4 && i < 4 && w < 8
    ensures (a + b + c + d + e + f + g + h)[4 * w + i] == [a[i], b[i], c[i], d[i], e[i], f[i], g[i], h[i]][w]
  {
  }

  ghost function Sha(): (f: Compression)
    ensures IsCompress(f)
  {
    (v: Chain, block: seq<Byte>) => if |block| == BLOCK then Compress(v, block) else v
  }

  /** The SHA-256 hash of a message. */
  ghost function Hash(msg: seq<Byte>): seq<Byte> {
    Digest(HashBlocks(Sha(), INITIAL, Padded(msg)))
  }

  lemma {:induction false} SameFold(f: Compression, g: Compression, start: Chain, data: seq<Byte>)
    requires |data| % BLOCK == 0 && IsCompress(f) && IsCompress(g)
    ensures HashBlocks(f, start, data) == HashBlocks(g, start, data)
    decreases |data|
  {
    if data == [] {
    } else {
      assert Compress(start, data[..BLOCK]) == f(start, data[..BLOCK]);
      SameFold(f, g, f(start, data[..BLOCK]), data[BLOCK..]);
    }
  }

  lemma {:induction false} HashBlocksAppend(f: Compression, start: Chain, data: seq<Byte>, block: seq<Byte>)
    requires |data| % BLOCK == 0 && |block| == BLOCK
    ensures HashBlocks(f, start, data + block) == f(HashBlocks(f, start, data), block)
    decreases |data|
  {
    if data == [] {
      assert data + block == block && block[..BLOCK] == block && block[BLOCK..] == [];
    } else {
      assert (data + block)[..BLOCK] == data[..BLOCK];
      assert (data + block)[BLOCK..] == data[BLOCK..] + block;
      HashBlocksAppend(f, f(start, data[..BLOCK]), data[BLOCK..], block);
    }
  }

  // ---------------------------------------------------------------- what the bytes spell

  /** Four bytes below 256 as one word: shifting and joining them is arithmetic in base 256. */
  lemma BytesOfWord(b0: Word, b1: Word, b2: Word, b3: Word)
    requires b0 < 256 && b1 < 256 && b2 < 256 && b3 < 256
    ensures (b0 << (24 as bv6)) | (b1 << (16 as bv6)) | (b2 << (8 as bv6)) | b3
         == b0 * 0x100_0000 + b1 * 0x1_0000 + b2 * 0x100 + b3
  {
  }

  lemma SmallWord(b: Byte)
    ensures (b as Word) < 256
  {
  }

  lemma WordByteIs(w: Word, shift: bv6)
    requires shift <= 24
    ensures WordByte(w, shift) as Word == (w >> shift) & 0xff
  {
    WordAgain((w >> shift) & 0xff);
  }

  lemma WordAgain(w: Word)
    ensures (w as int) as Word == w
  {
  }

  ghost function InBase256(b0: Byte, b1: Byte, b2: Byte, b3: Byte): Word {
    (b0 as Word) * 0x100_0000 + (b1 as Word) * 0x1_0000 + (b2 as Word) * 0x100 + (b3 as Word)
  }

  /** A word is read most significant byte first. */
  lemma WordIsBigEndian(b0: Byte, b1: Byte, b2: Byte, b3: Byte)
    ensures BigEndianWord(b0, b1, b2, b3) == InBase256(b0, b1, b2, b3)
  {
    SmallWord(b0);
    SmallWord(b1);
    SmallWord(b2);
    SmallWord(b3);
    BytesOfWord(b0 as Word, b1 as Word, b2 as Word, b3 as Word);
  }

  lemma PiecesOfWord(w: Word)
    ensures w == ((w >> (24 as bv6)) & 0xff) * 0x100_0000 + ((w >> (16 as bv6)) & 0xff) * 0x1_0000
              + ((w >> (8 as bv6)) & 0xff) * 0x100 + ((w >> (0 as bv6)) & 0xff)
  {
  }

  /** And written the same way. */
  lemma BytesAreBigEndian(w: Word)
    ensures var b := WordBytes(w); InBase256(b[0], b[1], b[2], b[3]) == w
  {
    hide WordByte;
    PiecesOfWord(w);
    WordByteIs(w, 24);
    WordByteIs(w, 16);
    WordByteIs(w, 8);
    WordByteIs(w, 0);
  }

  // ---------------------------------------------------------------- padding loses nothing

  lemma NestedDivisions(n: nat)
    ensures n / 0x1_00 / 256 == n / 0x1_0000
    ensures n / 0x1_0000 / 256 == n / 0x1_0000_00
    ensures n / 0x1_0000_00 / 256 == n / 0x1_0000_0000
    ensures n / 0x1_0000_0000 / 256 == n / 0x1_0000_0000_00
    ensures n / 0x1_0000_0000_00 / 256 == n / 0x1_0000_0000_0000
    ensures n / 0x1_0000_0000_0000 / 256 == n / 0x1_0000_0000_0000_00
  {
  }

  /** The value of the last bytes of a string, one byte more at a time. */
  lemma OneByteMore(s: seq<Byte>, i: nat, n: nat)
    requires i < |s| && s[i] == n % 256
    ensures Suffix(s, i) == n % 256 * Pow256(|s| - i - 1) + Suffix(s, i + 1)
  {
  }

  /** Four bytes of one number. */
  lemma FourBytes(s: seq<Byte>, i: nat, n0: nat, n1: nat, n2: nat, n3: nat)
    requires i + 4 <= |s| && n1 == n0 / 256 && n2 == n1 / 256 && n3 == n2 / 256 && n3 < 256
    requires s[i..i + 4] == [ByteOf(n3), ByteOf(n2), ByteOf(n1), ByteOf(n0)]
    ensures Suffix(s, i) == n0 * Pow256(|s| - i - 4) + Suffix(s, i + 4)
  {
    var four := s[i..i + 4];
    assert s[i] == four[0] && s[i + 1] == four[1] && s[i + 2] == four[2] && s[i + 3] == four[3];
    OneByteMore(s, i, n3);
    OneByteMore(s, i + 1, n2);
    OneByteMore(s, i + 2, n1);
    OneByteMore(s, i + 3, n0);
    Horner(n0, n1, n2, n3, Pow256(|s| - i - 4));
  }

  lemma Horner(n0: nat, n1: nat, n2: nat, n3: nat, p: nat)
    requires n1 == n0 / 256 && n2 == n1 / 256 && n3 == n2 / 256 && n3 < 256
    ensures n3 % 256 * (256 * (256 * (256 * p))) + n2 % 256 * (256 * (256 * p)) + n1 % 256 * (256 * p) + n0 % 256 * p
         == n0 * p
  {
    assert n0 == 256 * n1 + n0 % 256 && n1 == 256 * n2 + n1 % 256 && n2 == 256 * n3 + n2 % 256 && n3 % 256 == n3;
    var n := 0x100_0000 * (n3 % 256) + 0x1_0000 * (n2 % 256) + 256 * (n1 % 256) + n0 % 256;
    assert n == n0;
    assert n * p == n0 * p;
  }

  /** The length field spells the number, most significant byte first. */
  lemma LengthFieldSpells(n: nat)
    requires n < TWO_TO_64
    ensures Suffix(LengthField(n), 0) == n
  {
    hide LengthField, Suffix, Pow256, ByteOf;
    NestedDivisions(n);
    LengthFieldHalves(n);
    HighHalf(LengthField(n), n / 0x1_0000_0000, n / 0x1_0000_0000_00,
             n / 0x1_0000_0000_0000, n / 0x1_0000_0000_0000_00);
    LowHalf(LengthField(n), n);
  }

  lemma HighHalf(s: seq<Byte>, n0: nat, n1: nat, n2: nat, n3: nat)
    requires |s| == 8 && s[..4] == [ByteOf(n3), ByteOf(n2), ByteOf(n1), ByteOf(n0)]
    requires n1 == n0 / 256 && n2 == n1 / 256 && n3 == n2 / 256 && n3 < 256
    ensures Suffix(s, 0) == n0 * 0x1_0000_0000 + Suffix(s, 4)
  {
    hide Suffix, Pow256, ByteOf;
    assert s[0..4] == s[..4];
    FourBytes(s, 0, n0, n1, n2, n3);
    FourBytesWorth();
  }

  lemma FourBytesWorth()
    ensures Pow256(4) == 0x1_0000_0000
  {
  }

  lemma LengthFieldHalves(n: nat)
    ensures LengthField(n)[..4] == [ByteOf(n / 0x1_0000_0000_0000_00), ByteOf(n / 0x1_0000_0000_0000),
                                    ByteOf(n / 0x1_0000_0000_00), ByteOf(n / 0x1_0000_0000)]
    ensures LengthField(n)[4..] == [ByteOf(n / 0x1_0000_00), ByteOf(n / 0x1_0000), ByteOf(n / 0x1_00), ByteOf(n)]
  {
  }

  lemma LowHalf(s: seq<Byte>, n: nat)
    requires |s| == 8 && s[4..] == [ByteOf(n / 0x1_0000_00), ByteOf(n / 0x1_0000), ByteOf(n / 0x1_00), ByteOf(n)]
    ensures Suffix(s, 4) == n % 0x1_0000_0000
  {
    hide ByteOf, Pow256;
    var low := n % 0x1_0000_0000;
    LowDigits(n, n / 0x1_0000_0000, low);
    assert s[4..8] == s[4..];
    FourBytes(s, 4, low, low / 256, low / 256 / 256, low / 256 / 256 / 256);
    NothingFollows(s);
  }

  lemma NothingFollows(s: seq<Byte>)
    requires |s| == 8
    ensures Suffix(s, 8) == 0 && Pow256(0) == 1
  {
  }

  lemma DropByte(n: nat, above: nat, low: nat)
    requires n == 256 * above + low
    ensures ByteOf(n) == ByteOf(low) && n / 256 == above + low / 256
  {
  }

  lemma LowDigits(n: nat, high: nat, low: nat)
    requires n == 0x1_0000_0000 * high + low && low < 0x1_0000_0000
    ensures ByteOf(n) == ByteOf(low) && ByteOf(n / 0x1_00) == ByteOf(low / 256)
    ensures ByteOf(n / 0x1_0000) == ByteOf(low / 256 / 256)
    ensures ByteOf(n / 0x1_0000_00) == ByteOf(low / 256 / 256 / 256) && low / 256 / 256 / 256 < 256
  {
    hide ByteOf;
    NestedDivisions(n);
    DropByte(n, 0x100_0000 * high, low);
    DropByte(n / 256, 0x1_0000 * high, low / 256);
    DropByte(n / 256 / 256, 0x100 * high, low / 256 / 256);
    DropByte(n / 256 / 256 / 256, high, low / 256 / 256 / 256);
  }

  /** Eight bytes tell all 64-bit numbers apart. */
  lemma LengthFieldIsInjective(m: nat, n: nat)
    requires m < TWO_TO_64 && n < TWO_TO_64 && LengthField(m) == LengthField(n)
    ensures m == n
  {
    LengthFieldSpells(m);
    LengthFieldSpells(n);
  }

  lemma PaddedEnds(msg: seq<Byte>, field: seq<Byte>, p: seq<Byte>)
    requires |field| == 8 && p == PaddedWith(msg, field)
    ensures |p| >= |msg| + 9 && p[..|msg|] == msg && p[|p| - 8..] == field
  {
  }

  lemma NoWrap(n: nat)
    requires n < 0x2000_0000_0000_0000
    ensures 8 * n % TWO_TO_64 == 8 * n
  {
  }

  lemma {:induction false} SuffixOfDrop(s: seq<Byte>, i: nat, j: nat)
    requires i + j <= |s|
    ensures Suffix(s[i..], j) == Suffix(s, i + j)
    decreases |s| - j
  {
    if i + j == |s| {
    } else {
      SuffixOfDrop(s, i, j + 1);
    }
  }

  /** p is msg, the marker, as few zeros as fill the last block, and the length of msg in bits, which
      the last eight bytes spell. */
  ghost predicate IsPadding(msg: seq<Byte>, p: seq<Byte>) {
    && |p| % BLOCK == 0 && |msg| + 9 <= |p| < |msg| + 9 + BLOCK
    && p[..|msg|] == msg && p[|msg|] == 0x80
    && (forall i :: |msg| < i < |p| - 8 ==> p[i] == 0)
    && Suffix(p, |p| - 8) == 8 * |msg| % TWO_TO_64
  }

  lemma SameLength(n: nat, m: nat, from: nat)
    requires n % BLOCK == 0 && m % BLOCK == 0 && from <= n < from + BLOCK && from <= m < from + BLOCK
    ensures n == m
  {
  }

  /** The padding is the one string of this form. */
  lemma PaddingForm(msg: seq<Byte>, p: seq<Byte>)
    ensures IsPadding(msg, p) <==> p == Padded(msg)
  {
    hide LengthField, Suffix, ZeroCount;
    var q, bits := Padded(msg), 8 * |msg| % TWO_TO_64;
    LengthFieldSpells(bits);
    SuffixOfDrop(q, |q| - 8, 0);
    assert q[|q| - 8..] == LengthField(bits);
    assert IsPadding(msg, q);
    if IsPadding(msg, p) {
      SameLength(|p|, |q|, |msg| + 9);
      SpelledAlike(p, q, |p| - 8);
      SamePieces(p, q, |msg|, |p| - 8);
    }
  }

  lemma SamePieces(p: seq<Byte>, q: seq<Byte>, n: nat, m: nat)
    requires |p| == |q| && n < m <= |p| && p[..n] == q[..n] && p[n] == q[n] && p[m..] == q[m..]
    requires forall i :: n < i < m ==> p[i] == q[i]
    ensures p == q
  {
    forall i | 0 <= i < |p| ensures p[i] == q[i] {
      if i < n {
        assert p[..n][i] == q[..n][i];
      } else if i >= m {
        assert p[m..][i - m] == q[m..][i - m];
      }
    }
  }

  /** Below 2^61 bytes different messages are padded differently. */
  lemma PaddingIsInjective(m1: seq<Byte>, m2: seq<Byte>)
    requires |m1| < 0x2000_0000_0000_0000 && |m2| < 0x2000_0000_0000_0000
    requires Padded(m1) == Padded(m2)
    ensures m1 == m2
  {
    var p := Padded(m1);
    NoWrap(|m1|);
    NoWrap(|m2|);
    PaddedEnds(m1, LengthField(8 * |m1|), p);
    PaddedEnds(m2, LengthField(8 * |m2|), p);
    LengthFieldIsInjective(8 * |m1|, 8 * |m2|);
  }

  // ---------------------------------------------------------------- the last blocks

  /** What follows the hashed blocks: the waiting bytes, the marker, zeros and the length. */
  ghost function Tail(rest: seq<Byte>, field: seq<Byte>): (t: seq<Byte>)
    requires |rest| < BLOCK && |field| == 8
    ensures |t| == if |rest| < 56 then BLOCK else 2 * BLOCK
  {
    rest + [0x80] + Zeros(ZeroCount(|rest|)) + field
  }

  lemma PaddedIsTail(hashed: seq<Byte>, rest: seq<Byte>, field: seq<Byte>)
    requires |hashed| % BLOCK == 0 && |rest| < BLOCK && |field| == 8
    ensures PaddedWith(hashed + rest, field) == hashed + Tail(rest, field)
  {
    assert |hashed + rest| % BLOCK == |rest|;
  }

  lemma HashOneMore(f: Compression, hashed: seq<Byte>, rest: seq<Byte>, field: seq<Byte>)
    requires |hashed| % BLOCK == 0 && |rest| < 56 && |field| == 8
    ensures HashBlocks(f, INITIAL, PaddedWith(hashed + rest, field))
      == f(HashBlocks(f, INITIAL, hashed), Tail(rest, field))
  {
    PaddedIsTail(hashed, rest, field);
    HashBlocksAppend(f, INITIAL, hashed, Tail(rest, field));
  }

  lemma HashTwoMore(f: Compression, hashed: seq<Byte>, rest: seq<Byte>, field: seq<Byte>,
                    first: seq<Byte>, second: seq<Byte>)
    requires |hashed| % BLOCK == 0 && 56 <= |rest| < BLOCK && |field| == 8
    requires |first| == BLOCK == |second| && first + second == Tail(rest, field)
    ensures |hashed + first| % BLOCK == 0
    ensures HashBlocks(f, INITIAL, PaddedWith(hashed + rest, field))
      == f(HashBlocks(f, INITIAL, hashed + first), second)
  {
    PaddedIsTail(hashed, rest, field);
    assert hashed + Tail(rest, field) == (hashed + first) + second;
    HashBlocksAppend(f, INITIAL, hashed + first, second);
  }

  lemma FullTurns(x: nat, turns: nat, rest: nat)
    requires x == TWO_TO_64 * turns + rest
    ensures x % TWO_TO_64 == rest % TWO_TO_64
  {
  }

  lemma CountRest(n: nat, r: nat)
    ensures (8 * n % TWO_TO_64 + 8 * r) % TWO_TO_64 == 8 * (n + r) % TWO_TO_64
  {
    FullTurns(8 * (n + r), 8 * n / TWO_TO_64, 8 * n % TWO_TO_64 + 8 * r);
  }

  // ---------------------------------------------------------------- the streaming context

  lemma CountBlock(n: nat)
    requires n % BLOCK == 0
    ensures (8 * n % TWO_TO_64 + 512) % TWO_TO_64 == 8 * (n + BLOCK) % TWO_TO_64
    ensures (n + BLOCK) % BLOCK == 0
  {
    CountRest(n, BLOCK);
    OneBlockMore(n);
  }

  lemma OneBlockMore(n: nat)
    requires n % BLOCK == 0
    ensures (n + BLOCK) % BLOCK == 0
  {
  }

  class Context {
    const data: array<Byte>
    var datalen: nat
    var bitlen: nat
    const state: array<Word>
    /** What Transform computes. */
    ghost const compress: Compression
    /** What has been fed in so far. */
    ghost var msg: seq<Byte>

    ghost predicate Shape()
      reads this
    {
      data.Length == BLOCK && state.Length == 8 && IsCompress(compress)
    }

    ghost function Chaining(): Chain
      requires state.Length == 8
      reads state
    {
      Chain(state[0], state[1], state[2], state[3], state[4], state[5], state[6], state[7])
    }

    /** The blocks already hashed, and the rest that still waits in the buffer. */
    ghost predicate Holds(hashed: seq<Byte>, rest: seq<Byte>)
      requires Shape()
      reads this, state, data
    {
      && |hashed| % BLOCK == 0
      && |rest| == datalen <= BLOCK && data[..datalen] == rest
      && bitlen == 8 * |hashed| % TWO_TO_64
      && Chaining() == HashBlocks(compress, INITIAL, hashed)
    }

    ghost predicate Valid()
      reads this, state, data
    {
      && Shape() && datalen < BLOCK && datalen <= |msg|
      && Holds(msg[..|msg| - datalen], msg[|msg| - datalen..])
    }

    constructor ()
      ensures Valid() && msg == [] && fresh(data) && fresh(state)
    {
      data := new Byte[BLOCK];
      state := new Word[8];
      compress := Sha();
      datalen := 0;
      bitlen := 0;
      msg := [];
      new;
      state[0] := 0x6a09e667;
      state[1] := 0xbb67ae85;
      state[2] := 0x3c6ef372;
      state[3] := 0xa54ff53a;
      state[4] := 0x510e527f;
      state[5] := 0x9b05688c;
      state[6] := 0x1f83d9ab;
      state[7] := 0x5be0cd19;
    }

    method MakeSchedule() returns (m: array<Word>)
      requires Shape()
      ensures fresh(m) && m[..] == Schedule(data[..], 64)
    {
      m := FirstWords();
      LaterWords(m, data[..]);
      assert m[..] == m[..64];
    }

    method FirstWords() returns (m: array<Word>)
      requires Shape()
      ensures fresh(m) && m.Length == 64 && m[..16] == Schedule(data[..], 16)
    {
      hide BigEndianWord;
      m := new Word[64];
      ghost var block := data[..];
      var i, j := 0, 0;
      while i < 16
        invariant 0 <= i <= 16 && j == 4 * i
        invariant m[..i] == Schedule(block, i)
      {
        ghost var w := m[..i];
        var word := BigEndianWord(data[j], data[j + 1], data[j + 2], data[j + 3]);
        ScheduleStep(block, i);
        m[i] := word;
        i, j := i + 1, j + 4;
        assert m[..i] == w + [word];
      }
    }

    method LaterWords(m: array<Word>, ghost block: seq<Byte>)
      requires |block| == BLOCK && m.Length == 64 && m[..16] == Schedule(block, 16)
      modifies m
      ensures m[..64] == Schedule(block, 64)
    {
      hide Add, Sig0, Sig1, Schedule;
      var i := 16;
      while i < 64
        invariant 16 <= i <= 64
        invariant m[..i] == Schedule(block, i)
      {
        ghost var w := m[..i];
        var word := Add(Add(Add(Sig1(m[i - 2]), m[i - 7]), Sig0(m[i - 15])), m[i - 16]);
        assert word == NextWord(w);
        LaterStep(block, i);
        m[i] := word;
        i := i + 1;
        assert m[..i] == w + [word];
      }
    }

    /** Compresses the 64 bytes in `data` into the state. */
    method Transform()
      requires Shape()
      modifies state
      ensures Chaining() == compress(old(Chaining()), data[..])
    {
      hide Add, Ep0, Ep1, Ch, Maj, Schedule;
      var m := MakeSchedule();
      ghost var w := m[..];
      ghost var start := Chaining();
      var k := K;
      var a, b, c, d := state[0], state[1], state[2], state[3];
      var e, f, g, h := state[4], state[5], state[6], state[7];
      var i := 0;
      while i < 64
        invariant 0 <= i <= 64
        invariant Chain(a, b, c, d, e, f, g, h) == RoundsUpTo(start, k, w, i)
      {
        var t1 := Add(Add(Add(Add(h, Ep1(e)), Ch(e, f, g)), k[i]), m[i]);
        var t2 := Add(Ep0(a), Maj(a, b, c));
        h := g;
        g := f;
        f := e;
        e := Add(d, t1);
        d := c;
        c := b;
        b := a;
        a := Add(t1, t2);
        i := i + 1;
      }
      assert Compress(start, data[..]) == compress(start, data[..]);
      state[0] := Add(state[0], a);
      state[1] := Add(state[1], b);
      state[2] := Add(state[2], c);
      state[3] := Add(state[3], d);
      state[4] := Add(state[4], e);
      state[5] := Add(state[5], f);
      state[6] := Add(state[6], g);
      state[7] := Add(state[7], h);
    }

    // -------------------------------------------------------------- feeding in

    /** Adds a chunk of fewer than 2^32 bytes; the byte counter has 32 bits. */
    method Update(chunk: seq<Byte>)
      requires Valid() && |chunk| < 0x1_0000_0000
      modifies this, data, state
      ensures Valid() && msg == old(msg) + chunk
    {
      var i := 0;
      while i < |chunk|
        invariant 0 <= i <= |chunk|
        invariant Valid() && msg == old(msg) + chunk[..i]
      {
        PutByte(chunk[i]);
        i := i + 1;
        assert chunk[..i] == chunk[..i - 1] + [chunk[i - 1]];
      }
      assert chunk[..i] == chunk;
    }

    /** The body of the update loop. */
    method PutByte(b: Byte)
      requires Valid()
      modifies this, data, state
      ensures Valid() && msg == old(msg) + [b]
    {
      ghost var hashed, rest := msg[..|msg| - datalen], msg[|msg| - datalen..];
      data[datalen] := b;
      datalen := datalen + 1;
      msg := msg + [b];
      assert Holds(hashed, rest + [b]);
      if datalen == BLOCK {
        Flush(hashed, rest + [b]);
        assert msg[..|msg|] == hashed + (rest + [b]);
      } else {
        assert msg[..|msg| - datalen] == hashed;
        assert msg[|msg| - datalen..] == rest + [b];
      }
    }

    /** Hashes the full buffer. */
    method Flush(ghost hashed: seq<Byte>, ghost rest: seq<Byte>)
      requires Shape() && Holds(hashed, rest) && datalen == BLOCK
      modifies this`bitlen, this`datalen, state
      ensures datalen == 0 && Holds(hashed + rest, [])
    {
      assert data[..] == data[..datalen];
      HashBlocksAppend(compress, INITIAL, hashed, rest);
      CountBlock(|hashed|);
      Transform();
      bitlen := (bitlen + 512) % TWO_TO_64;
      datalen := 0;
    }

    // -------------------------------------------------------------- finishing

    /** The marker byte behind the waiting bytes, then zeros up to `end`. */
    method PutMarker(end: nat)
      requires Shape() && datalen < end <= BLOCK
      modifies data
      ensures data[..end] == old(data[..datalen]) + [0x80] + Zeros(end - datalen - 1)
    {
      var i := datalen;
      data[i] := 0x80;
      i := i + 1;
      while i < end
        invariant datalen < i <= end
        invariant data[..i] == old(data[..datalen]) + [0x80] + Zeros(i - datalen - 1)
      {
        data[i] := 0x00;
        i := i + 1;
      }
    }

    method ClearFront()
      requires Shape()
      modifies data
      ensures data[..56] == Zeros(56)
    {
      var i := 0;
      while i < 56
        invariant 0 <= i <= 56
        invariant data[..i] == Zeros(i)
      {
        data[i] := 0x00;
        i := i + 1;
      }
    }

    /** The count goes into the last eight bytes, the lowest byte last. */
    method PutLength(field: seq<Byte>)
      requires Shape() && |field| == 8
      modifies data
      ensures forall i :: 0 <= i < 56 ==> data[i] == old(data[i])
      ensures forall i :: 0 <= i < 8 ==> data[56 + i] == field[i]
    {
      data[63] := field[7];
      data[62] := field[6];
      data[61] := field[5];
      data[60] := field[4];
      data[59] := field[3];
      data[58] := field[2];
      data[57] := field[1];
      data[56] := field[0];
    }

    /** Pads, hashes the last one or two blocks and leaves the digest in `hash`. */
    method Final(hash: array<Byte>)
      requires Valid() && hash.Length == 32 && hash != data
      modifies this`bitlen, data, state, hash
      ensures hash[..] == Hash(msg)
    {
      SameFold(compress, Sha(), INITIAL, Padded(msg));
      HashRest(msg[..|msg| - datalen], msg[|msg| - datalen..]);
      PutDigest(hash);
    }

    method HashRest(ghost hashed: seq<Byte>, ghost rest: seq<Byte>)
      requires Shape() && Holds(hashed, rest) && datalen < BLOCK && msg == hashed + rest
      modifies this`bitlen, data, state
      ensures Chaining() == HashBlocks(compress, INITIAL, Padded(msg))
    {
      ghost var bits := 8 * |msg| % TWO_TO_64;
      CountRest(|hashed|, |rest|);
      assert (bitlen + 8 * datalen) % TWO_TO_64 == bits;
      ghost var before, last := PadBuffer(hashed, rest, LengthField(bits));
      LastBlock(bits, last);
    }

    /** Puts the count into the buffer and hashes it. */
    method LastBlock(ghost bits: nat, ghost last: seq<Byte>)
      requires Shape() && (bitlen + 8 * datalen) % TWO_TO_64 == bits
      requires |last| == BLOCK && last == data[..56] + LengthField(bits)
      modifies this`bitlen, data, state
      ensures Chaining() == compress(old(Chaining()), last)
    {
      bitlen := (bitlen + datalen * 8) % TWO_TO_64;
      PutLength(LengthField(bitlen));
      assert data[..] == last;
      Transform();
    }

    /** Pads the buffer up to the place of the length, which may take an extra block. */
    method PadBuffer(ghost hashed: seq<Byte>, ghost rest: seq<Byte>, ghost field: seq<Byte>)
      returns (ghost before: seq<Byte>, ghost last: seq<Byte>)
      requires Shape() && Holds(hashed, rest) && datalen < BLOCK && |field| == 8
      modifies data, state
      ensures |before| % BLOCK == 0 && |last| == BLOCK && last == data[..56] + field
      ensures Chaining() == HashBlocks(compress, INITIAL, before)
      ensures HashBlocks(compress, INITIAL, PaddedWith(hashed + rest, field))
        == compress(HashBlocks(compress, INITIAL, before), last)
    {
      if datalen < 56 {
        PutMarker(56);
        before, last := hashed, Tail(rest, field);
        HashOneMore(compress, hashed, rest, field);
      } else {
        before, last := FirstOfTwo(hashed, rest, field);
      }
    }

    /** The block that ends in the marker and zeros, when the length needs another one. */
    method FirstOfTwo(ghost hashed: seq<Byte>, ghost rest: seq<Byte>, ghost field: seq<Byte>)
      returns (ghost before: seq<Byte>, ghost last: seq<Byte>)
      requires Shape() && Holds(hashed, rest) && 56 <= datalen < BLOCK && |field| == 8
      modifies data, state
      ensures |before| % BLOCK == 0 && |last| == BLOCK && last == data[..56] + field
      ensures Chaining() == HashBlocks(compress, INITIAL, before)
      ensures HashBlocks(compress, INITIAL, PaddedWith(hashed + rest, field))
        == compress(HashBlocks(compress, INITIAL, before), last)
    {
      PutMarker(BLOCK);
      assert data[..] == data[..BLOCK];
      ghost var first := data[..];
      last := Zeros(56) + field;
      assert first + last == Tail(rest, field);
      HashBlocksAppend(compress, INITIAL, hashed, first);
      HashTwoMore(compress, hashed, rest, field, first, last);
      before := hashed + first;
      Transform();
      ClearFront();
    }

    method PutDigest(hash: array<Byte>)
      requires Shape() && hash.Length == 32
      modifies hash
      ensures hash[..] == Digest(Chaining())
    {
      ghost var v := Chaining();
      var i := 0;
      while i < 4
        invariant 0 <= i <= 4
        invariant forall j {:trigger hash[j]} :: 0 <= j < 32 && j % 4 < i ==> hash[j] == Digest(v)[j]
      {
        var c := Chain(state[0], state[1], state[2], state[3], state[4], state[5], state[6], state[7]);
        PutColumn(hash, i, Column(c, i));
        forall j {:trigger hash[j]} | 0 <= j < 32 && j % 4 == i ensures hash[j] == Digest(v)[j] {
          DigestColumn(v, i, j / 4);
        }
        i := i + 1;
      }
    }

    /** The body of the output loop: byte i of each of the eight words. */
    method PutColumn(hash: array<Byte>, i: nat, bytes: seq<Byte>)
      requires hash.Length == 32 && i < 4 && |bytes| == 8
      modifies hash
      ensures forall j {:trigger hash[j]} ::
        0 <= j < 32 ==> hash[j] == if j % 4 == i then bytes[j / 4] else old(hash[j])
    {
      hash[i] := bytes[0];
      hash[i + 4] := bytes[1];
      hash[i + 8] := bytes[2];
      hash[i + 12] := bytes[3];
      hash[i + 16] := bytes[4];
      hash[i + 20] := bytes[5];
      hash[i + 24] := bytes[6];
      hash[i + 28] := bytes[7];
    }
  }

  // ---------------------------------------------------------------- the key of a file

  const READ_SIZE := 4096

  /** What one read of the file brings; no bytes at all mean its end. */
  datatype Read = Got(bytes: seq<Byte>) | Failed

  /** What arrives before the reads end or fail. */
  ghost function Content(pieces: seq<Read>): seq<Byte> {
    if pieces == [] || pieces[0].Failed? || pieces[0].bytes == [] then []
    else pieces[0].bytes + Content(pieces[1..])
  }

  /** A read fails before the end of the file is reached. */
  ghost predicate Broken(pieces: seq<Read>) {
    pieces != [] && (pieces[0].Failed? || (pieces[0].bytes != [] && Broken(pieces[1..])))
  }

  ghost predicate ReadsFit(pieces: seq<Read>) {
    forall i :: 0 <= i < |pieces| && pieces[i].Got? ==> |pieces[i].bytes| <= READ_SIZE
  }

  lemma NextRead(pieces: seq<Read>, i: nat)
    requires i <= |pieces|
    ensures i == |pieces| || pieces[i].Failed? || pieces[i].bytes == [] ==> Content(pieces[i..]) == []
    ensures i == |pieces| || (pieces[i].Got? && pieces[i].bytes == []) ==> !Broken(pieces[i..])
    ensures i < |pieces| && pieces[i].Failed? ==> Broken(pieces[i..])
    ensures i < |pieces| && pieces[i].Got? && pieces[i].bytes != [] ==>
      Content(pieces[i..]) == pieces[i].bytes + Content(pieces[i + 1..])
        && Broken(pieces[i..]) == Broken(pieces[i + 1..])
  {
    assert i < |pieces| ==> pieces[i..][1..] == pieces[i + 1..];
  }

  /** The read loop: every piece goes into the context. */
  method Feed(ctx: Context, pieces: seq<Read>) returns (ok: bool, size: nat)
    requires ctx.Valid() && ctx.msg == [] && ReadsFit(pieces)
    modifies ctx, ctx.data, ctx.state
    ensures ctx.Valid() && ctx.msg == Content(pieces)
    ensures ok == !Broken(pieces) && size == |Content(pieces)|
  {
    hide Context.Valid, Context.Holds, Context.Shape, Context.Chaining, Content, Broken;
    ok, size := true, 0;
    var i := 0;
    assert pieces[i..] == pieces;
    while i < |pieces|
      invariant 0 <= i <= |pieces| && ok
      invariant ctx.Valid() && ctx.msg + Content(pieces[i..]) == Content(pieces) && size == |ctx.msg|
      invariant Broken(pieces[i..]) == Broken(pieces)
    {
      NextRead(pieces, i);
      if pieces[i].Failed? {
        ok := false;
        return;
      }
      if pieces[i].bytes == [] {
        return;
      }
      ctx.Update(pieces[i].bytes);
      size := size + |pieces[i].bytes|;
      i := i + 1;
    }
    NextRead(pieces, i);
  }

  /** However a file is cut into the pieces that are read from it, its key is the hash of the
      whole file; when a read fails there is no key. */
  method KeyFromFile(key: array<Byte>, pieces: seq<Read>) returns (ok: bool, size: nat)
    requires key.Length == 32 && ReadsFit(pieces)
    modifies key
    ensures ok == !Broken(pieces) && size == |Content(pieces)|
    ensures key[..] == if ok then Hash(Content(pieces)) else old(key[..])
  {
    hide Hash, Content, Broken;
    var ctx := new Context();
    ok, size := Feed(ctx, pieces);
    if ok {
      ctx.Final(key);
    }
  }
}

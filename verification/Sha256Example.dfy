/** The one-block example that the standard comes with (FIPS 180-2, appendix B.1): the hash of the
    three bytes "abc", by way of the words of the schedule and the variables after each round. */
module Sha256Example {
  import opened KeyBytes
  import opened Sha256

  const ABC: seq<Byte> := [0x61, 0x62, 0x63]

  /** Four words of s from t on. */
  ghost predicate Row(s: seq<Word>, t: nat, w0: Word, w1: Word, w2: Word, w3: Word)
    requires t + 4 <= |s|
  {
    s[t] == w0 && s[t + 1] == w1 && s[t + 2] == w2 && s[t + 3] == w3
  }

  // ---------------------------------------------------------------- the words

  function Sum(w2: Word, w7: Word, w15: Word, w16: Word): Word {
    Add(Add(Add(Sig1(w2), w7), Sig0(w15)), w16)
  }

  ghost predicate SumAt(w: seq<Word>, t: nat)
    requires 16 <= t < |w|
  {
    w[t] == Sum(w[t - 2], w[t - 7], w[t - 15], w[t - 16])
  }

  lemma SumStays(w: seq<Word>, w': seq<Word>, t: nat)
    requires 16 <= t < |w| <= |w'| && w <= w' && SumAt(w, t)
    ensures SumAt(w', t)
  {
    hide Sum;
  }

  lemma LaterWord(block: seq<Byte>, t: nat)
    requires |block| == BLOCK && 16 <= t < 64
    ensures Schedule(block, t) <= Schedule(block, t + 1) && SumAt(Schedule(block, t + 1), t)
  {
    hide Schedule, Add;
    LaterStep(block, t);
  }

  /** Each word after the first sixteen is made of four earlier ones. */
  lemma {:induction false} ScheduleFrom(block: seq<Byte>, t: nat)
    requires |block| == BLOCK && 16 <= t <= 64
    ensures Schedule(block, t)[..16] == Schedule(block, 16)
    ensures forall i :: 16 <= i < t ==> SumAt(Schedule(block, t), i)
    decreases t
  {
    hide SumAt, Schedule;
    if t == 16 {
      assert Schedule(block, 16)[..16] == Schedule(block, 16);
    } else {
      ScheduleFrom(block, t - 1);
      LaterWord(block, t - 1);
      forall i | 16 <= i < t - 1 ensures SumAt(Schedule(block, t), i) {
        SumStays(Schedule(block, t - 1), Schedule(block, t), i);
      }
    }
  }

  /** Each of the first sixteen is four bytes of the block. */
  lemma {:induction false} FirstWordAt(block: seq<Byte>, t: nat, i: nat)
    requires |block| == BLOCK && i < t <= 16
    ensures Schedule(block, t)[i] == BigEndianWord(block[4 * i], block[4 * i + 1], block[4 * i + 2], block[4 * i + 3])
    decreases t
  {
    hide BigEndianWord, Schedule;
    ScheduleStep(block, t - 1);
    if i == t - 1 {
    } else {
      FirstWordAt(block, t - 1, i);
    }
  }

  lemma AbcPadded(p: seq<Byte>)
    requires p == Padded(ABC)
    ensures |p| == BLOCK && p[0] == 0x61 && p[1] == 0x62 && p[2] == 0x63 && p[3] == 0x80 && p[63] == 24
    ensures forall i :: 4 <= i < 63 ==> p[i] == 0
  {
    assert LengthField(24) == [0, 0, 0, 0, 0, 0, 0, 24];
  }

  lemma AbcFirstWords(w: seq<Word>)
    requires w == Schedule(Padded(ABC), 64)
    ensures w[0] == 0x61626380 && w[15] == 0x00000018 && forall t :: 1 <= t < 15 ==> w[t] == 0
    ensures forall t :: 16 <= t < 64 ==> SumAt(w, t)
  {
    hide Schedule, Padded, SumAt, BigEndianWord;
    var p := Padded(ABC);
    AbcPadded(p);
    ScheduleFrom(p, 64);
    assert w[..16] == Schedule(p, 16);
    forall t | 0 <= t < 16
      ensures w[t] == BigEndianWord(p[4 * t], p[4 * t + 1], p[4 * t + 2], p[4 * t + 3])
    {
      FirstWordAt(p, 16, t);
      assert w[t] == w[..16][t];
    }
    SomeWords();
    assert w[0] == BigEndianWord(p[0], p[1], p[2], p[3]);
    assert w[15] == BigEndianWord(p[60], p[61], p[62], p[63]);
    forall t | 1 <= t < 15 ensures w[t] == 0 {
      assert 4 <= 4 * t && 4 * t + 3 < 63;
    }
  }

  lemma SomeWords()
    ensures BigEndianWord(0x61, 0x62, 0x63, 0x80) == 0x61626380
    ensures BigEndianWord(0, 0, 0, 24) == 0x00000018 && BigEndianWord(0, 0, 0, 0) == 0
  {
  }

  lemma Words16(w: seq<Word>)
    requires |w| == 64 && forall t :: 16 <= t < 24 ==> SumAt(w, t)
    requires Row(w, 0, 0x61626380, 0x00000000, 0x00000000, 0x00000000)
    requires Row(w, 4, 0x00000000, 0x00000000, 0x00000000, 0x00000000)
    requires Row(w, 8, 0x00000000, 0x00000000, 0x00000000, 0x00000000)
    requires Row(w, 12, 0x00000000, 0x00000000, 0x00000000, 0x00000018)
    ensures Row(w, 16, 0x61626380, 0x000f0000, 0x7da86405, 0x600003c6)
    ensures Row(w, 20, 0x3e9d7b78, 0x0183fc00, 0x12dcbfdb, 0xe2e2c38e)
  {
    assert SumAt(w, 16) && Sum(0x00000000, 0x00000000, 0x00000000, 0x61626380) == 0x61626380;
    assert SumAt(w, 17) && Sum(0x00000018, 0x00000000, 0x00000000, 0x00000000) == 0x000f0000;
    assert SumAt(w, 18) && Sum(0x61626380, 0x00000000, 0x00000000, 0x00000000) == 0x7da86405;
    assert SumAt(w, 19) && Sum(0x000f0000, 0x00000000, 0x00000000, 0x00000000) == 0x600003c6;
    assert SumAt(w, 20) && Sum(0x7da86405, 0x00000000, 0x00000000, 0x00000000) == 0x3e9d7b78;
    assert SumAt(w, 21) && Sum(0x600003c6, 0x00000000, 0x00000000, 0x00000000) == 0x0183fc00;
    assert SumAt(w, 22) && Sum(0x3e9d7b78, 0x00000018, 0x00000000, 0x00000000) == 0x12dcbfdb;
    assert SumAt(w, 23) && Sum(0x0183fc00, 0x61626380, 0x00000000, 0x00000000) == 0xe2e2c38e;
  }

  lemma Words24(w: seq<Word>)
    requires |w| == 64 && forall t :: 24 <= t < 32 ==> SumAt(w, t)
    requires Row(w, 8, 0x00000000, 0x00000000, 0x00000000, 0x00000000)
    requires Row(w, 12, 0x00000000, 0x00000000, 0x00000000, 0x00000018)
    requires Row(w, 16, 0x61626380, 0x000f0000, 0x7da86405, 0x600003c6)
    requires Row(w, 20, 0x3e9d7b78, 0x0183fc00, 0x12dcbfdb, 0xe2e2c38e)
    ensures Row(w, 24, 0xc8215c1a, 0xb73679a2, 0xe5bc3909, 0x32663c5b)
    ensures Row(w, 28, 0x9d209d67, 0xec8726cb, 0x702138a4, 0xd3b7973b)
  {
    assert SumAt(w, 24) && Sum(0x12dcbfdb, 0x000f0000, 0x00000000, 0x00000000) == 0xc8215c1a;
    assert SumAt(w, 25) && Sum(0xe2e2c38e, 0x7da86405, 0x00000000, 0x00000000) == 0xb73679a2;
    assert SumAt(w, 26) && Sum(0xc8215c1a, 0x600003c6, 0x00000000, 0x00000000) == 0xe5bc3909;
    assert SumAt(w, 27) && Sum(0xb73679a2, 0x3e9d7b78, 0x00000000, 0x00000000) == 0x32663c5b;
    assert SumAt(w, 28) && Sum(0xe5bc3909, 0x0183fc00, 0x00000000, 0x00000000) == 0x9d209d67;
    assert SumAt(w, 29) && Sum(0x32663c5b, 0x12dcbfdb, 0x00000000, 0x00000000) == 0xec8726cb;
    assert SumAt(w, 30) && Sum(0x9d209d67, 0xe2e2c38e, 0x00000018, 0x00000000) == 0x702138a4;
    assert SumAt(w, 31) && Sum(0xec8726cb, 0xc8215c1a, 0x61626380, 0x00000018) == 0xd3b7973b;
  }

  lemma Words32(w: seq<Word>)
    requires |w| == 64 && forall t :: 32 <= t < 40 ==> SumAt(w, t)
    requires Row(w, 16, 0x61626380, 0x000f0000, 0x7da86405, 0x600003c6)
    requires Row(w, 20, 0x3e9d7b78, 0x0183fc00, 0x12dcbfdb, 0xe2e2c38e)
    requires Row(w, 24, 0xc8215c1a, 0xb73679a2, 0xe5bc3909, 0x32663c5b)
    requires Row(w, 28, 0x9d209d67, 0xec8726cb, 0x702138a4, 0xd3b7973b)
    ensures Row(w, 32, 0x93f5997f, 0x3b68ba73, 0xaff4ffc1, 0xf10a5c62)
    ensures Row(w, 36, 0x0a8b3996, 0x72af830a, 0x9409e33e, 0x24641522)
  {
    assert SumAt(w, 32) && Sum(0x702138a4, 0xb73679a2, 0x000f0000, 0x61626380) == 0x93f5997f;
    assert SumAt(w, 33) && Sum(0xd3b7973b, 0xe5bc3909, 0x7da86405, 0x000f0000) == 0x3b68ba73;
    assert SumAt(w, 34) && Sum(0x93f5997f, 0x32663c5b, 0x600003c6, 0x7da86405) == 0xaff4ffc1;
    assert SumAt(w, 35) && Sum(0x3b68ba73, 0x9d209d67, 0x3e9d7b78, 0x600003c6) == 0xf10a5c62;
    assert SumAt(w, 36) && Sum(0xaff4ffc1, 0xec8726cb, 0x0183fc00, 0x3e9d7b78) == 0x0a8b3996;
    assert SumAt(w, 37) && Sum(0xf10a5c62, 0x702138a4, 0x12dcbfdb, 0x0183fc00) == 0x72af830a;
    assert SumAt(w, 38) && Sum(0x0a8b3996, 0xd3b7973b, 0xe2e2c38e, 0x12dcbfdb) == 0x9409e33e;
    assert SumAt(w, 39) && Sum(0x72af830a, 0x93f5997f, 0xc8215c1a, 0xe2e2c38e) == 0x24641522;
  }

  lemma Words40(w: seq<Word>)
    requires |w| == 64 && forall t :: 40 <= t < 48 ==> SumAt(w, t)
    requires Row(w, 24, 0xc8215c1a, 0xb73679a2, 0xe5bc3909, 0x32663c5b)
    requires Row(w, 28, 0x9d209d67, 0xec8726cb, 0x702138a4, 0xd3b7973b)
    requires Row(w, 32, 0x93f5997f, 0x3b68ba73, 0xaff4ffc1, 0xf10a5c62)
    requires Row(w, 36, 0x0a8b3996, 0x72af830a, 0x9409e33e, 0x24641522)
    ensures Row(w, 40, 0x9f47bf94, 0xf0a64f5a, 0x3e246a79, 0x27333ba3)
    ensures Row(w, 44, 0x0c4763f2, 0x840abf27, 0x7a290d5d, 0x065c43da)
  {
    assert SumAt(w, 40) && Sum(0x9409e33e, 0x3b68ba73, 0xb73679a2, 0xc8215c1a) == 0x9f47bf94;
    assert SumAt(w, 41) && Sum(0x24641522, 0xaff4ffc1, 0xe5bc3909, 0xb73679a2) == 0xf0a64f5a;
    assert SumAt(w, 42) && Sum(0x9f47bf94, 0xf10a5c62, 0x32663c5b, 0xe5bc3909) == 0x3e246a79;
    assert SumAt(w, 43) && Sum(0xf0a64f5a, 0x0a8b3996, 0x9d209d67, 0x32663c5b) == 0x27333ba3;
    assert SumAt(w, 44) && Sum(0x3e246a79, 0x72af830a, 0xec8726cb, 0x9d209d67) == 0x0c4763f2;
    assert SumAt(w, 45) && Sum(0x27333ba3, 0x9409e33e, 0x702138a4, 0xec8726cb) == 0x840abf27;
    assert SumAt(w, 46) && Sum(0x0c4763f2, 0x24641522, 0xd3b7973b, 0x702138a4) == 0x7a290d5d;
    assert SumAt(w, 47) && Sum(0x840abf27, 0x9f47bf94, 0x93f5997f, 0xd3b7973b) == 0x065c43da;
  }

  lemma Words48(w: seq<Word>)
    requires |w| == 64 && forall t :: 48 <= t < 56 ==> SumAt(w, t)
    requires Row(w, 32, 0x93f5997f, 0x3b68ba73, 0xaff4ffc1, 0xf10a5c62)
    requires Row(w, 36, 0x0a8b3996, 0x72af830a, 0x9409e33e, 0x24641522)
    requires Row(w, 40, 0x9f47bf94, 0xf0a64f5a, 0x3e246a79, 0x27333ba3)
    requires Row(w, 44, 0x0c4763f2, 0x840abf27, 0x7a290d5d, 0x065c43da)
    ensures Row(w, 48, 0xfb3e89cb, 0xcc7617db, 0xb9e66c34, 0xa9993667)
    ensures Row(w, 52, 0x84badedd, 0xc21462bc, 0x1487472c, 0xb20f7a99)
  {
    assert SumAt(w, 48) && Sum(0x7a290d5d, 0xf0a64f5a, 0x3b68ba73, 0x93f5997f) == 0xfb3e89cb;
    assert SumAt(w, 49) && Sum(0x065c43da, 0x3e246a79, 0xaff4ffc1, 0x3b68ba73) == 0xcc7617db;
    assert SumAt(w, 50) && Sum(0xfb3e89cb, 0x27333ba3, 0xf10a5c62, 0xaff4ffc1) == 0xb9e66c34;
    assert SumAt(w, 51) && Sum(0xcc7617db, 0x0c4763f2, 0x0a8b3996, 0xf10a5c62) == 0xa9993667;
    assert SumAt(w, 52) && Sum(0xb9e66c34, 0x840abf27, 0x72af830a, 0x0a8b3996) == 0x84badedd;
    assert SumAt(w, 53) && Sum(0xa9993667, 0x7a290d5d, 0x9409e33e, 0x72af830a) == 0xc21462bc;
    assert SumAt(w, 54) && Sum(0x84badedd, 0x065c43da, 0x24641522, 0x9409e33e) == 0x1487472c;
    assert SumAt(w, 55) && Sum(0xc21462bc, 0xfb3e89cb, 0x9f47bf94, 0x24641522) == 0xb20f7a99;
  }

  lemma Words56(w: seq<Word>)
    requires |w| == 64 && forall t :: 56 <= t < 64 ==> SumAt(w, t)
    requires Row(w, 40, 0x9f47bf94, 0xf0a64f5a, 0x3e246a79, 0x27333ba3)
    requires Row(w, 44, 0x0c4763f2, 0x840abf27, 0x7a290d5d, 0x065c43da)
    requires Row(w, 48, 0xfb3e89cb, 0xcc7617db, 0xb9e66c34, 0xa9993667)
    requires Row(w, 52, 0x84badedd, 0xc21462bc, 0x1487472c, 0xb20f7a99)
    ensures Row(w, 56, 0xef57b9cd, 0xebe6b238, 0x9fe3095e, 0x78bc8d4b)
    ensures Row(w, 60, 0xa43fcf15, 0x668b2ff8, 0xeeaba2cc, 0x12b1edeb)
  {
    assert SumAt(w, 56) && Sum(0x1487472c, 0xcc7617db, 0xf0a64f5a, 0x9f47bf94) == 0xef57b9cd;
    assert SumAt(w, 57) && Sum(0xb20f7a99, 0xb9e66c34, 0x3e246a79, 0xf0a64f5a) == 0xebe6b238;
    assert SumAt(w, 58) && Sum(0xef57b9cd, 0xa9993667, 0x27333ba3, 0x3e246a79) == 0x9fe3095e;
    assert SumAt(w, 59) && Sum(0xebe6b238, 0x84badedd, 0x0c4763f2, 0x27333ba3) == 0x78bc8d4b;
    assert SumAt(w, 60) && Sum(0x9fe3095e, 0xc21462bc, 0x840abf27, 0x0c4763f2) == 0xa43fcf15;
    assert SumAt(w, 61) && Sum(0x78bc8d4b, 0x1487472c, 0x7a290d5d, 0x840abf27) == 0x668b2ff8;
    assert SumAt(w, 62) && Sum(0xa43fcf15, 0xb20f7a99, 0x065c43da, 0x7a290d5d) == 0xeeaba2cc;
    assert SumAt(w, 63) && Sum(0x668b2ff8, 0xef57b9cd, 0xfb3e89cb, 0x065c43da) == 0x12b1edeb;
  }

  lemma AbcWords(w: seq<Word>)
    requires w == Schedule(Padded(ABC), 64)
    ensures Row(w, 0, 0x61626380, 0x00000000, 0x00000000, 0x00000000)
    ensures Row(w, 4, 0x00000000, 0x00000000, 0x00000000, 0x00000000)
    ensures Row(w, 8, 0x00000000, 0x00000000, 0x00000000, 0x00000000)
    ensures Row(w, 12, 0x00000000, 0x00000000, 0x00000000, 0x00000018)
    ensures Row(w, 16, 0x61626380, 0x000f0000, 0x7da86405, 0x600003c6)
    ensures Row(w, 20, 0x3e9d7b78, 0x0183fc00, 0x12dcbfdb, 0xe2e2c38e)
    ensures Row(w, 24, 0xc8215c1a, 0xb73679a2, 0xe5bc3909, 0x32663c5b)
    ensures Row(w, 28, 0x9d209d67, 0xec8726cb, 0x702138a4, 0xd3b7973b)
    ensures Row(w, 32, 0x93f5997f, 0x3b68ba73, 0xaff4ffc1, 0xf10a5c62)
    ensures Row(w, 36, 0x0a8b3996, 0x72af830a, 0x9409e33e, 0x24641522)
    ensures Row(w, 40, 0x9f47bf94, 0xf0a64f5a, 0x3e246a79, 0x27333ba3)
    ensures Row(w, 44, 0x0c4763f2, 0x840abf27, 0x7a290d5d, 0x065c43da)
    ensures Row(w, 48, 0xfb3e89cb, 0xcc7617db, 0xb9e66c34, 0xa9993667)
    ensures Row(w, 52, 0x84badedd, 0xc21462bc, 0x1487472c, 0xb20f7a99)
    ensures Row(w, 56, 0xef57b9cd, 0xebe6b238, 0x9fe3095e, 0x78bc8d4b)
    ensures Row(w, 60, 0xa43fcf15, 0x668b2ff8, 0xeeaba2cc, 0x12b1edeb)
  {
    hide Schedule, SumAt;
    AbcFirstWords(w);
    LaterAbcWords(w);
  }

  lemma LaterAbcWords(w: seq<Word>)
    requires |w| == 64 && forall t :: 16 <= t < 64 ==> SumAt(w, t)
    requires Row(w, 0, 0x61626380, 0x00000000, 0x00000000, 0x00000000)
    requires Row(w, 4, 0x00000000, 0x00000000, 0x00000000, 0x00000000)
    requires Row(w, 8, 0x00000000, 0x00000000, 0x00000000, 0x00000000)
    requires Row(w, 12, 0x00000000, 0x00000000, 0x00000000, 0x00000018)
    ensures Row(w, 16, 0x61626380, 0x000f0000, 0x7da86405, 0x600003c6)
    ensures Row(w, 20, 0x3e9d7b78, 0x0183fc00, 0x12dcbfdb, 0xe2e2c38e)
    ensures Row(w, 24, 0xc8215c1a, 0xb73679a2, 0xe5bc3909, 0x32663c5b)
    ensures Row(w, 28, 0x9d209d67, 0xec8726cb, 0x702138a4, 0xd3b7973b)
    ensures Row(w, 32, 0x93f5997f, 0x3b68ba73, 0xaff4ffc1, 0xf10a5c62)
    ensures Row(w, 36, 0x0a8b3996, 0x72af830a, 0x9409e33e, 0x24641522)
    ensures Row(w, 40, 0x9f47bf94, 0xf0a64f5a, 0x3e246a79, 0x27333ba3)
    ensures Row(w, 44, 0x0c4763f2, 0x840abf27, 0x7a290d5d, 0x065c43da)
    ensures Row(w, 48, 0xfb3e89cb, 0xcc7617db, 0xb9e66c34, 0xa9993667)
    ensures Row(w, 52, 0x84badedd, 0xc21462bc, 0x1487472c, 0xb20f7a99)
    ensures Row(w, 56, 0xef57b9cd, 0xebe6b238, 0x9fe3095e, 0x78bc8d4b)
    ensures Row(w, 60, 0xa43fcf15, 0x668b2ff8, 0xeeaba2cc, 0x12b1edeb)
  {
    hide Row, SumAt;
    Words16(w);
    Words24(w);
    Words32(w);
    Words40(w);
    Words48(w);
    Words56(w);
  }

  // ---------------------------------------------------------------- the rounds

  /** The variables after t rounds. */
  ghost predicate After(w: seq<Word>, t: nat, v: Chain)
    requires t <= 64
  {
    |w| == 64 && RoundsUpTo(INITIAL, K, w, t) == v
  }

  lemma Round(w: seq<Word>, t: nat, v: Chain, k: Word, x: Word, a: Word, e: Word)
    requires t < 64 && After(w, t, v) && K[t] == k && w[t] == x
    requires OneRound(v, k, x) == Chain(a, v.a, v.b, v.c, e, v.e, v.f, v.g)
    ensures After(w, t + 1, Chain(a, v.a, v.b, v.c, e, v.e, v.f, v.g))
  {
    hide OneRound;
  }

  lemma Rounds0(w: seq<Word>)
    requires After(w, 0,
      Chain(0x6a09e667, 0xbb67ae85, 0x3c6ef372, 0xa54ff53a, 0x510e527f, 0x9b05688c, 0x1f83d9ab, 0x5be0cd19))
    requires |w| == 64 && Row(w, 0, 0x61626380, 0x00000000, 0x00000000, 0x00000000)
    ensures After(w, 4,
      Chain(0xd550f666, 0xc8c347a7, 0x5a6ad9ad, 0x5d6aebcd, 0x24e00850, 0xf92939eb, 0x78ce7989, 0xfa2a4622))
  {
    hide After;
    assert Row(K, 0, 0x428a2f98, 0x71374491, 0xb5c0fbcf, 0xe9b5dba5);
    Round(w, 0, Chain(0x6a09e667, 0xbb67ae85, 0x3c6ef372, 0xa54ff53a, 0x510e527f, 0x9b05688c, 0x1f83d9ab, 0x5be0cd19),
          0x428a2f98, 0x61626380, 0x5d6aebcd, 0xfa2a4622);
    Round(w, 1, Chain(0x5d6aebcd, 0x6a09e667, 0xbb67ae85, 0x3c6ef372, 0xfa2a4622, 0x510e527f, 0x9b05688c, 0x1f83d9ab),
          0x71374491, 0x00000000, 0x5a6ad9ad, 0x78ce7989);
    Round(w, 2, Chain(0x5a6ad9ad, 0x5d6aebcd, 0x6a09e667, 0xbb67ae85, 0x78ce7989, 0xfa2a4622, 0x510e527f, 0x9b05688c),
          0xb5c0fbcf, 0x00000000, 0xc8c347a7, 0xf92939eb);
    Round(w, 3, Chain(0xc8c347a7, 0x5a6ad9ad, 0x5d6aebcd, 0x6a09e667, 0xf92939eb, 0x78ce7989, 0xfa2a4622, 0x510e527f),
          0xe9b5dba5, 0x00000000, 0xd550f666, 0x24e00850);
  }

  lemma Rounds4(w: seq<Word>)
    requires After(w, 4,
      Chain(0xd550f666, 0xc8c347a7, 0x5a6ad9ad, 0x5d6aebcd, 0x24e00850, 0xf92939eb, 0x78ce7989, 0xfa2a4622))
    requires |w| == 64 && Row(w, 4, 0x00000000, 0x00000000, 0x00000000, 0x00000000)
    ensures After(w, 8,
      Chain(0x85a07b5f, 0xe5030380, 0x2b4209f5, 0x04409a6a, 0x0c657a79, 0x9b27a401, 0x714260ad, 0x43ada245))
  {
    hide After;
    assert Row(K, 4, 0x3956c25b, 0x59f111f1, 0x923f82a4, 0xab1c5ed5);
    Round(w, 4, Chain(0xd550f666, 0xc8c347a7, 0x5a6ad9ad, 0x5d6aebcd, 0x24e00850, 0xf92939eb, 0x78ce7989, 0xfa2a4622),
          0x3956c25b, 0x00000000, 0x04409a6a, 0x43ada245);
    Round(w, 5, Chain(0x04409a6a, 0xd550f666, 0xc8c347a7, 0x5a6ad9ad, 0x43ada245, 0x24e00850, 0xf92939eb, 0x78ce7989),
          0x59f111f1, 0x00000000, 0x2b4209f5, 0x714260ad);
    Round(w, 6, Chain(0x2b4209f5, 0x04409a6a, 0xd550f666, 0xc8c347a7, 0x714260ad, 0x43ada245, 0x24e00850, 0xf92939eb),
          0x923f82a4, 0x00000000, 0xe5030380, 0x9b27a401);
    Round(w, 7, Chain(0xe5030380, 0x2b4209f5, 0x04409a6a, 0xd550f666, 0x9b27a401, 0x714260ad, 0x43ada245, 0x24e00850),
          0xab1c5ed5, 0x00000000, 0x85a07b5f, 0x0c657a79);
  }

  lemma Rounds8(w: seq<Word>)
    requires After(w, 8,
      Chain(0x85a07b5f, 0xe5030380, 0x2b4209f5, 0x04409a6a, 0x0c657a79, 0x9b27a401, 0x714260ad, 0x43ada245))
    requires |w| == 64 && Row(w, 8, 0x00000000, 0x00000000, 0x00000000, 0x00000000)
    ensures After(w, 12,
      Chain(0xf71fc5a9, 0x4798a3f4, 0x8c87346b, 0x8e04ecb9, 0x816fd6e9, 0x436b23e8, 0x1cc92596, 0x32ca2d8c))
  {
    hide After;
    assert Row(K, 8, 0xd807aa98, 0x12835b01, 0x243185be, 0x550c7dc3);
    Round(w, 8, Chain(0x85a07b5f, 0xe5030380, 0x2b4209f5, 0x04409a6a, 0x0c657a79, 0x9b27a401, 0x714260ad, 0x43ada245),
          0xd807aa98, 0x00000000, 0x8e04ecb9, 0x32ca2d8c);
    Round(w, 9, Chain(0x8e04ecb9, 0x85a07b5f, 0xe5030380, 0x2b4209f5, 0x32ca2d8c, 0x0c657a79, 0x9b27a401, 0x714260ad),
          0x12835b01, 0x00000000, 0x8c87346b, 0x1cc92596);
    Round(w, 10, Chain(0x8c87346b, 0x8e04ecb9, 0x85a07b5f, 0xe5030380, 0x1cc92596, 0x32ca2d8c, 0x0c657a79, 0x9b27a401),
          0x243185be, 0x00000000, 0x4798a3f4, 0x436b23e8);
    Round(w, 11, Chain(0x4798a3f4, 0x8c87346b, 0x8e04ecb9, 0x85a07b5f, 0x436b23e8, 0x1cc92596, 0x32ca2d8c, 0x0c657a79),
          0x550c7dc3, 0x00000000, 0xf71fc5a9, 0x816fd6e9);
  }

  lemma Rounds12(w: seq<Word>)
    requires After(w, 12,
      Chain(0xf71fc5a9, 0x4798a3f4, 0x8c87346b, 0x8e04ecb9, 0x816fd6e9, 0x436b23e8, 0x1cc92596, 0x32ca2d8c))
    requires |w| == 64 && Row(w, 12, 0x00000000, 0x00000000, 0x00000000, 0x00000018)
    ensures After(w, 16,
      Chain(0xb0fa238e, 0xc0645fde, 0xd932eb16, 0x87912990, 0x07590dcd, 0x0b92f20c, 0x745a48de, 0x1e578218))
  {
    hide After;
    assert Row(K, 12, 0x72be5d74, 0x80deb1fe, 0x9bdc06a7, 0xc19bf174);
    Round(w, 12, Chain(0xf71fc5a9, 0x4798a3f4, 0x8c87346b, 0x8e04ecb9, 0x816fd6e9, 0x436b23e8, 0x1cc92596, 0x32ca2d8c),
          0x72be5d74, 0x00000000, 0x87912990, 0x1e578218);
    Round(w, 13, Chain(0x87912990, 0xf71fc5a9, 0x4798a3f4, 0x8c87346b, 0x1e578218, 0x816fd6e9, 0x436b23e8, 0x1cc92596),
          0x80deb1fe, 0x00000000, 0xd932eb16, 0x745a48de);
    Round(w, 14, Chain(0xd932eb16, 0x87912990, 0xf71fc5a9, 0x4798a3f4, 0x745a48de, 0x1e578218, 0x816fd6e9, 0x436b23e8),
          0x9bdc06a7, 0x00000000, 0xc0645fde, 0x0b92f20c);
    Round(w, 15, Chain(0xc0645fde, 0xd932eb16, 0x87912990, 0xf71fc5a9, 0x0b92f20c, 0x745a48de, 0x1e578218, 0x816fd6e9),
          0xc19bf174, 0x00000018, 0xb0fa238e, 0x07590dcd);
  }

  lemma Rounds16(w: seq<Word>)
    requires After(w, 16,
      Chain(0xb0fa238e, 0xc0645fde, 0xd932eb16, 0x87912990, 0x07590dcd, 0x0b92f20c, 0x745a48de, 0x1e578218))
    requires |w| == 64 && Row(w, 16, 0x61626380, 0x000f0000, 0x7da86405, 0x600003c6)
    ensures After(w, 20,
      Chain(0xe1f20c33, 0xfe777bbf, 0xc2fbd9d1, 0x21da9a9b, 0xb0638179, 0xcc899961, 0x846ee454, 0x8034229c))
  {
    hide After;
    assert Row(K, 16, 0xe49b69c1, 0xefbe4786, 0x0fc19dc6, 0x240ca1cc);
    Round(w, 16, Chain(0xb0fa238e, 0xc0645fde, 0xd932eb16, 0x87912990, 0x07590dcd, 0x0b92f20c, 0x745a48de, 0x1e578218),
          0xe49b69c1, 0x61626380, 0x21da9a9b, 0x8034229c);
    Round(w, 17, Chain(0x21da9a9b, 0xb0fa238e, 0xc0645fde, 0xd932eb16, 0x8034229c, 0x07590dcd, 0x0b92f20c, 0x745a48de),
          0xefbe4786, 0x000f0000, 0xc2fbd9d1, 0x846ee454);
    Round(w, 18, Chain(0xc2fbd9d1, 0x21da9a9b, 0xb0fa238e, 0xc0645fde, 0x846ee454, 0x8034229c, 0x07590dcd, 0x0b92f20c),
          0x0fc19dc6, 0x7da86405, 0xfe777bbf, 0xcc899961);
    Round(w, 19, Chain(0xfe777bbf, 0xc2fbd9d1, 0x21da9a9b, 0xb0fa238e, 0xcc899961, 0x846ee454, 0x8034229c, 0x07590dcd),
          0x240ca1cc, 0x600003c6, 0xe1f20c33, 0xb0638179);
  }

  lemma Rounds20(w: seq<Word>)
    requires After(w, 20,
      Chain(0xe1f20c33, 0xfe777bbf, 0xc2fbd9d1, 0x21da9a9b, 0xb0638179, 0xcc899961, 0x846ee454, 0x8034229c))
    requires |w| == 64 && Row(w, 20, 0x3e9d7b78, 0x0183fc00, 0x12dcbfdb, 0xe2e2c38e)
    ensures After(w, 24,
      Chain(0xc5d53d8d, 0xa7a3623f, 0xc2606d6d, 0x9dc68b63, 0xaa47c347, 0x49f5114a, 0xe1257970, 0x8ada8930))
  {
    hide After;
    assert Row(K, 20, 0x2de92c6f, 0x4a7484aa, 0x5cb0a9dc, 0x76f988da);
    Round(w, 20, Chain(0xe1f20c33, 0xfe777bbf, 0xc2fbd9d1, 0x21da9a9b, 0xb0638179, 0xcc899961, 0x846ee454, 0x8034229c),
          0x2de92c6f, 0x3e9d7b78, 0x9dc68b63, 0x8ada8930);
    Round(w, 21, Chain(0x9dc68b63, 0xe1f20c33, 0xfe777bbf, 0xc2fbd9d1, 0x8ada8930, 0xb0638179, 0xcc899961, 0x846ee454),
          0x4a7484aa, 0x0183fc00, 0xc2606d6d, 0xe1257970);
    Round(w, 22, Chain(0xc2606d6d, 0x9dc68b63, 0xe1f20c33, 0xfe777bbf, 0xe1257970, 0x8ada8930, 0xb0638179, 0xcc899961),
          0x5cb0a9dc, 0x12dcbfdb, 0xa7a3623f, 0x49f5114a);
    Round(w, 23, Chain(0xa7a3623f, 0xc2606d6d, 0x9dc68b63, 0xe1f20c33, 0x49f5114a, 0xe1257970, 0x8ada8930, 0xb0638179),
          0x76f988da, 0xe2e2c38e, 0xc5d53d8d, 0xaa47c347);
  }

  lemma Rounds24(w: seq<Word>)
    requires After(w, 24,
      Chain(0xc5d53d8d, 0xa7a3623f, 0xc2606d6d, 0x9dc68b63, 0xaa47c347, 0x49f5114a, 0xe1257970, 0x8ada8930))
    requires |w| == 64 && Row(w, 24, 0xc8215c1a, 0xb73679a2, 0xe5bc3909, 0x32663c5b)
    ensures After(w, 28,
      Chain(0x77d37528, 0xb62ec4bc, 0xcde8037d, 0x1c2c2838, 0xedffbff8, 0xc74c6516, 0x14383d8e, 0x2823ef91))
  {
    hide After;
    assert Row(K, 24, 0x983e5152, 0xa831c66d, 0xb00327c8, 0xbf597fc7);
    Round(w, 24, Chain(0xc5d53d8d, 0xa7a3623f, 0xc2606d6d, 0x9dc68b63, 0xaa47c347, 0x49f5114a, 0xe1257970, 0x8ada8930),
          0x983e5152, 0xc8215c1a, 0x1c2c2838, 0x2823ef91);
    Round(w, 25, Chain(0x1c2c2838, 0xc5d53d8d, 0xa7a3623f, 0xc2606d6d, 0x2823ef91, 0xaa47c347, 0x49f5114a, 0xe1257970),
          0xa831c66d, 0xb73679a2, 0xcde8037d, 0x14383d8e);
    Round(w, 26, Chain(0xcde8037d, 0x1c2c2838, 0xc5d53d8d, 0xa7a3623f, 0x14383d8e, 0x2823ef91, 0xaa47c347, 0x49f5114a),
          0xb00327c8, 0xe5bc3909, 0xb62ec4bc, 0xc74c6516);
    Round(w, 27, Chain(0xb62ec4bc, 0xcde8037d, 0x1c2c2838, 0xc5d53d8d, 0xc74c6516, 0x14383d8e, 0x2823ef91, 0xaa47c347),
          0xbf597fc7, 0x32663c5b, 0x77d37528, 0xedffbff8);
  }

  lemma Rounds28(w: seq<Word>)
    requires After(w, 28,
      Chain(0x77d37528, 0xb62ec4bc, 0xcde8037d, 0x1c2c2838, 0xedffbff8, 0xc74c6516, 0x14383d8e, 0x2823ef91))
    requires |w| == 64 && Row(w, 28, 0x9d209d67, 0xec8726cb, 0x702138a4, 0xd3b7973b)
    ensures After(w, 32,
      Chain(0x73b33bf5, 0xea992a22, 0xa0060b30, 0x363482c9, 0xba591112, 0x0109ab3a, 0xade79437, 0x6112a3b7))
  {
    hide After;
    assert Row(K, 28, 0xc6e00bf3, 0xd5a79147, 0x06ca6351, 0x14292967);
    Round(w, 28, Chain(0x77d37528, 0xb62ec4bc, 0xcde8037d, 0x1c2c2838, 0xedffbff8, 0xc74c6516, 0x14383d8e, 0x2823ef91),
          0xc6e00bf3, 0x9d209d67, 0x363482c9, 0x6112a3b7);
    Round(w, 29, Chain(0x363482c9, 0x77d37528, 0xb62ec4bc, 0xcde8037d, 0x6112a3b7, 0xedffbff8, 0xc74c6516, 0x14383d8e),
          0xd5a79147, 0xec8726cb, 0xa0060b30, 0xade79437);
    Round(w, 30, Chain(0xa0060b30, 0x363482c9, 0x77d37528, 0xb62ec4bc, 0xade79437, 0x6112a3b7, 0xedffbff8, 0xc74c6516),
          0x06ca6351, 0x702138a4, 0xea992a22, 0x0109ab3a);
    Round(w, 31, Chain(0xea992a22, 0xa0060b30, 0x363482c9, 0x77d37528, 0x0109ab3a, 0xade79437, 0x6112a3b7, 0xedffbff8),
          0x14292967, 0xd3b7973b, 0x73b33bf5, 0xba591112);
  }

  lemma Rounds32(w: seq<Word>)
    requires After(w, 32,
      Chain(0x73b33bf5, 0xea992a22, 0xa0060b30, 0x363482c9, 0xba591112, 0x0109ab3a, 0xade79437, 0x6112a3b7))
    requires |w| == 64 && Row(w, 32, 0x93f5997f, 0x3b68ba73, 0xaff4ffc1, 0xf10a5c62)
    ensures After(w, 36,
      Chain(0x65a0cfe4, 0xa9a7738c, 0xfe604df5, 0x98e12507, 0xf4b002d6, 0x085f3833, 0x59249dd3, 0x9cd9f5f6))
  {
    hide After;
    assert Row(K, 32, 0x27b70a85, 0x2e1b2138, 0x4d2c6dfc, 0x53380d13);
    Round(w, 32, Chain(0x73b33bf5, 0xea992a22, 0xa0060b30, 0x363482c9, 0xba591112, 0x0109ab3a, 0xade79437, 0x6112a3b7),
          0x27b70a85, 0x93f5997f, 0x98e12507, 0x9cd9f5f6);
    Round(w, 33, Chain(0x98e12507, 0x73b33bf5, 0xea992a22, 0xa0060b30, 0x9cd9f5f6, 0xba591112, 0x0109ab3a, 0xade79437),
          0x2e1b2138, 0x3b68ba73, 0xfe604df5, 0x59249dd3);
    Round(w, 34, Chain(0xfe604df5, 0x98e12507, 0x73b33bf5, 0xea992a22, 0x59249dd3, 0x9cd9f5f6, 0xba591112, 0x0109ab3a),
          0x4d2c6dfc, 0xaff4ffc1, 0xa9a7738c, 0x085f3833);
    Round(w, 35, Chain(0xa9a7738c, 0xfe604df5, 0x98e12507, 0x73b33bf5, 0x085f3833, 0x59249dd3, 0x9cd9f5f6, 0xba591112),
          0x53380d13, 0xf10a5c62, 0x65a0cfe4, 0xf4b002d6);
  }

  lemma Rounds36(w: seq<Word>)
    requires After(w, 36,
      Chain(0x65a0cfe4, 0xa9a7738c, 0xfe604df5, 0x98e12507, 0xf4b002d6, 0x085f3833, 0x59249dd3, 0x9cd9f5f6))
    requires |w| == 64 && Row(w, 36, 0x0a8b3996, 0x72af830a, 0x9409e33e, 0x24641522)
    ensures After(w, 40,
      Chain(0x79ea687a, 0x6dc57a8a, 0x34df1604, 0x41a65cb1, 0x1efbc0a0, 0xf0781bc8, 0xa507a53d, 0x0772a26b))
  {
    hide After;
    assert Row(K, 36, 0x650a7354, 0x766a0abb, 0x81c2c92e, 0x92722c85);
    Round(w, 36, Chain(0x65a0cfe4, 0xa9a7738c, 0xfe604df5, 0x98e12507, 0xf4b002d6, 0x085f3833, 0x59249dd3, 0x9cd9f5f6),
          0x650a7354, 0x0a8b3996, 0x41a65cb1, 0x0772a26b);
    Round(w, 37, Chain(0x41a65cb1, 0x65a0cfe4, 0xa9a7738c, 0xfe604df5, 0x0772a26b, 0xf4b002d6, 0x085f3833, 0x59249dd3),
          0x766a0abb, 0x72af830a, 0x34df1604, 0xa507a53d);
    Round(w, 38, Chain(0x34df1604, 0x41a65cb1, 0x65a0cfe4, 0xa9a7738c, 0xa507a53d, 0x0772a26b, 0xf4b002d6, 0x085f3833),
          0x81c2c92e, 0x9409e33e, 0x6dc57a8a, 0xf0781bc8);
    Round(w, 39, Chain(0x6dc57a8a, 0x34df1604, 0x41a65cb1, 0x65a0cfe4, 0xf0781bc8, 0xa507a53d, 0x0772a26b, 0xf4b002d6),
          0x92722c85, 0x24641522, 0x79ea687a, 0x1efbc0a0);
  }

  lemma Rounds40(w: seq<Word>)
    requires After(w, 40,
      Chain(0x79ea687a, 0x6dc57a8a, 0x34df1604, 0x41a65cb1, 0x1efbc0a0, 0xf0781bc8, 0xa507a53d, 0x0772a26b))
    requires |w| == 64 && Row(w, 40, 0x9f47bf94, 0xf0a64f5a, 0x3e246a79, 0x27333ba3)
    ensures After(w, 44,
      Chain(0x9d4baf93, 0x17aa0dfe, 0xdf46652f, 0xd6670766, 0xfda24c2e, 0xdecd4715, 0x838b2711, 0x26352d63))
  {
    hide After;
    assert Row(K, 40, 0xa2bfe8a1, 0xa81a664b, 0xc24b8b70, 0xc76c51a3);
    Round(w, 40, Chain(0x79ea687a, 0x6dc57a8a, 0x34df1604, 0x41a65cb1, 0x1efbc0a0, 0xf0781bc8, 0xa507a53d, 0x0772a26b),
          0xa2bfe8a1, 0x9f47bf94, 0xd6670766, 0x26352d63);
    Round(w, 41, Chain(0xd6670766, 0x79ea687a, 0x6dc57a8a, 0x34df1604, 0x26352d63, 0x1efbc0a0, 0xf0781bc8, 0xa507a53d),
          0xa81a664b, 0xf0a64f5a, 0xdf46652f, 0x838b2711);
    Round(w, 42, Chain(0xdf46652f, 0xd6670766, 0x79ea687a, 0x6dc57a8a, 0x838b2711, 0x26352d63, 0x1efbc0a0, 0xf0781bc8),
          0xc24b8b70, 0x3e246a79, 0x17aa0dfe, 0xdecd4715);
    Round(w, 43, Chain(0x17aa0dfe, 0xdf46652f, 0xd6670766, 0x79ea687a, 0xdecd4715, 0x838b2711, 0x26352d63, 0x1efbc0a0),
          0xc76c51a3, 0x27333ba3, 0x9d4baf93, 0xfda24c2e);
  }

  lemma Rounds44(w: seq<Word>)
    requires After(w, 44,
      Chain(0x9d4baf93, 0x17aa0dfe, 0xdf46652f, 0xd6670766, 0xfda24c2e, 0xdecd4715, 0x838b2711, 0x26352d63))
    requires |w| == 64 && Row(w, 44, 0x0c4763f2, 0x840abf27, 0x7a290d5d, 0x065c43da)
    ensures After(w, 48,
      Chain(0x4172328d, 0xa14c14b0, 0x72ab4b91, 0x26628815, 0xfecf0bc6, 0xd57b94a9, 0xb7755da1, 0xa80f11f0))
  {
    hide After;
    assert Row(K, 44, 0xd192e819, 0xd6990624, 0xf40e3585, 0x106aa070);
    Round(w, 44, Chain(0x9d4baf93, 0x17aa0dfe, 0xdf46652f, 0xd6670766, 0xfda24c2e, 0xdecd4715, 0x838b2711, 0x26352d63),
          0xd192e819, 0x0c4763f2, 0x26628815, 0xa80f11f0);
    Round(w, 45, Chain(0x26628815, 0x9d4baf93, 0x17aa0dfe, 0xdf46652f, 0xa80f11f0, 0xfda24c2e, 0xdecd4715, 0x838b2711),
          0xd6990624, 0x840abf27, 0x72ab4b91, 0xb7755da1);
    Round(w, 46, Chain(0x72ab4b91, 0x26628815, 0x9d4baf93, 0x17aa0dfe, 0xb7755da1, 0xa80f11f0, 0xfda24c2e, 0xdecd4715),
          0xf40e3585, 0x7a290d5d, 0xa14c14b0, 0xd57b94a9);
    Round(w, 47, Chain(0xa14c14b0, 0x72ab4b91, 0x26628815, 0x9d4baf93, 0xd57b94a9, 0xb7755da1, 0xa80f11f0, 0xfda24c2e),
          0x106aa070, 0x065c43da, 0x4172328d, 0xfecf0bc6);
  }

  lemma Rounds48(w: seq<Word>)
    requires After(w, 48,
      Chain(0x4172328d, 0xa14c14b0, 0x72ab4b91, 0x26628815, 0xfecf0bc6, 0xd57b94a9, 0xb7755da1, 0xa80f11f0))
    requires |w| == 64 && Row(w, 48, 0xfb3e89cb, 0xcc7617db, 0xb9e66c34, 0xa9993667)
    ensures After(w, 52,
      Chain(0x886e7a22, 0x7a0508a1, 0xf11bfaa8, 0x05757ceb, 0x49231c1e, 0x52f1ccf7, 0x6e5c390c, 0xbd714038))
  {
    hide After;
    assert Row(K, 48, 0x19a4c116, 0x1e376c08, 0x2748774c, 0x34b0bcb5);
    Round(w, 48, Chain(0x4172328d, 0xa14c14b0, 0x72ab4b91, 0x26628815, 0xfecf0bc6, 0xd57b94a9, 0xb7755da1, 0xa80f11f0),
          0x19a4c116, 0xfb3e89cb, 0x05757ceb, 0xbd714038);
    Round(w, 49, Chain(0x05757ceb, 0x4172328d, 0xa14c14b0, 0x72ab4b91, 0xbd714038, 0xfecf0bc6, 0xd57b94a9, 0xb7755da1),
          0x1e376c08, 0xcc7617db, 0xf11bfaa8, 0x6e5c390c);
    Round(w, 50, Chain(0xf11bfaa8, 0x05757ceb, 0x4172328d, 0xa14c14b0, 0x6e5c390c, 0xbd714038, 0xfecf0bc6, 0xd57b94a9),
          0x2748774c, 0xb9e66c34, 0x7a0508a1, 0x52f1ccf7);
    Round(w, 51, Chain(0x7a0508a1, 0xf11bfaa8, 0x05757ceb, 0x4172328d, 0x52f1ccf7, 0x6e5c390c, 0xbd714038, 0xfecf0bc6),
          0x34b0bcb5, 0xa9993667, 0x886e7a22, 0x49231c1e);
  }

  lemma Rounds52(w: seq<Word>)
    requires After(w, 52,
      Chain(0x886e7a22, 0x7a0508a1, 0xf11bfaa8, 0x05757ceb, 0x49231c1e, 0x52f1ccf7, 0x6e5c390c, 0xbd714038))
    requires |w| == 64 && Row(w, 52, 0x84badedd, 0xc21462bc, 0x1487472c, 0xb20f7a99)
    ensures After(w, 56,
      Chain(0x38cc9913, 0x3ec45cdb, 0xf5702fdb, 0x101fd28f, 0x54cb266b, 0xe50e1b4f, 0x9f4787c3, 0x529e7d00))
  {
    hide After;
    assert Row(K, 52, 0x391c0cb3, 0x4ed8aa4a, 0x5b9cca4f, 0x682e6ff3);
    Round(w, 52, Chain(0x886e7a22, 0x7a0508a1, 0xf11bfaa8, 0x05757ceb, 0x49231c1e, 0x52f1ccf7, 0x6e5c390c, 0xbd714038),
          0x391c0cb3, 0x84badedd, 0x101fd28f, 0x529e7d00);
    Round(w, 53, Chain(0x101fd28f, 0x886e7a22, 0x7a0508a1, 0xf11bfaa8, 0x529e7d00, 0x49231c1e, 0x52f1ccf7, 0x6e5c390c),
          0x4ed8aa4a, 0xc21462bc, 0xf5702fdb, 0x9f4787c3);
    Round(w, 54, Chain(0xf5702fdb, 0x101fd28f, 0x886e7a22, 0x7a0508a1, 0x9f4787c3, 0x529e7d00, 0x49231c1e, 0x52f1ccf7),
          0x5b9cca4f, 0x1487472c, 0x3ec45cdb, 0xe50e1b4f);
    Round(w, 55, Chain(0x3ec45cdb, 0xf5702fdb, 0x101fd28f, 0x886e7a22, 0xe50e1b4f, 0x9f4787c3, 0x529e7d00, 0x49231c1e),
          0x682e6ff3, 0xb20f7a99, 0x38cc9913, 0x54cb266b);
  }

  lemma Rounds56(w: seq<Word>)
    requires After(w, 56,
      Chain(0x38cc9913, 0x3ec45cdb, 0xf5702fdb, 0x101fd28f, 0x54cb266b, 0xe50e1b4f, 0x9f4787c3, 0x529e7d00))
    requires |w| == 64 && Row(w, 56, 0xef57b9cd, 0xebe6b238, 0x9fe3095e, 0x78bc8d4b)
    ensures After(w, 60,
      Chain(0xb6ae8fff, 0xffb70472, 0xc062d46f, 0xfcd1887b, 0xb21bad3d, 0x6d83bfc6, 0x7e44008e, 0x9b5e906c))
  {
    hide After;
    assert Row(K, 56, 0x748f82ee, 0x78a5636f, 0x84c87814, 0x8cc70208);
    Round(w, 56, Chain(0x38cc9913, 0x3ec45cdb, 0xf5702fdb, 0x101fd28f, 0x54cb266b, 0xe50e1b4f, 0x9f4787c3, 0x529e7d00),
          0x748f82ee, 0xef57b9cd, 0xfcd1887b, 0x9b5e906c);
    Round(w, 57, Chain(0xfcd1887b, 0x38cc9913, 0x3ec45cdb, 0xf5702fdb, 0x9b5e906c, 0x54cb266b, 0xe50e1b4f, 0x9f4787c3),
          0x78a5636f, 0xebe6b238, 0xc062d46f, 0x7e44008e);
    Round(w, 58, Chain(0xc062d46f, 0xfcd1887b, 0x38cc9913, 0x3ec45cdb, 0x7e44008e, 0x9b5e906c, 0x54cb266b, 0xe50e1b4f),
          0x84c87814, 0x9fe3095e, 0xffb70472, 0x6d83bfc6);
    Round(w, 59, Chain(0xffb70472, 0xc062d46f, 0xfcd1887b, 0x38cc9913, 0x6d83bfc6, 0x7e44008e, 0x9b5e906c, 0x54cb266b),
          0x8cc70208, 0x78bc8d4b, 0xb6ae8fff, 0xb21bad3d);
  }

  lemma Rounds60(w: seq<Word>)
    requires After(w, 60,
      Chain(0xb6ae8fff, 0xffb70472, 0xc062d46f, 0xfcd1887b, 0xb21bad3d, 0x6d83bfc6, 0x7e44008e, 0x9b5e906c))
    requires |w| == 64 && Row(w, 60, 0xa43fcf15, 0x668b2ff8, 0xeeaba2cc, 0x12b1edeb)
    ensures After(w, 64,
      Chain(0x506e3058, 0xd39a2165, 0x04d24d6c, 0xb85e2ce9, 0x5ef50f24, 0xfb121210, 0x948d25b6, 0x961f4894))
  {
    hide After;
    assert Row(K, 60, 0x90befffa, 0xa4506ceb, 0xbef9a3f7, 0xc67178f2);
    Round(w, 60, Chain(0xb6ae8fff, 0xffb70472, 0xc062d46f, 0xfcd1887b, 0xb21bad3d, 0x6d83bfc6, 0x7e44008e, 0x9b5e906c),
          0x90befffa, 0xa43fcf15, 0xb85e2ce9, 0x961f4894);
    Round(w, 61, Chain(0xb85e2ce9, 0xb6ae8fff, 0xffb70472, 0xc062d46f, 0x961f4894, 0xb21bad3d, 0x6d83bfc6, 0x7e44008e),
          0xa4506ceb, 0x668b2ff8, 0x04d24d6c, 0x948d25b6);
    Round(w, 62, Chain(0x04d24d6c, 0xb85e2ce9, 0xb6ae8fff, 0xffb70472, 0x948d25b6, 0x961f4894, 0xb21bad3d, 0x6d83bfc6),
          0xbef9a3f7, 0xeeaba2cc, 0xd39a2165, 0xfb121210);
    Round(w, 63, Chain(0xd39a2165, 0x04d24d6c, 0xb85e2ce9, 0xb6ae8fff, 0xfb121210, 0x948d25b6, 0x961f4894, 0xb21bad3d),
          0xc67178f2, 0x12b1edeb, 0x506e3058, 0x5ef50f24);
  }

  lemma NoRound(w: seq<Word>)
    requires |w| == 64
    ensures After(w, 0, INITIAL)
  {
  }

  lemma AbcRounds(w: seq<Word>)
    requires w == Schedule(Padded(ABC), 64)
    ensures After(w, 64,
      Chain(0x506e3058, 0xd39a2165, 0x04d24d6c, 0xb85e2ce9, 0x5ef50f24, 0xfb121210, 0x948d25b6, 0x961f4894))
  {
    hide Schedule, Row, After;
    AbcWords(w);
    NoRound(w);
    Rounds0(w);
    Rounds4(w);
    Rounds8(w);
    Rounds12(w);
    Rounds16(w);
    Rounds20(w);
    Rounds24(w);
    Rounds28(w);
    Rounds32(w);
    Rounds36(w);
    Rounds40(w);
    Rounds44(w);
    Rounds48(w);
    Rounds52(w);
    Rounds56(w);
    Rounds60(w);
  }

  // ---------------------------------------------------------------- the hash

  lemma OneBlock(p: seq<Byte>)
    requires |p| == BLOCK
    ensures HashBlocks(Sha(), INITIAL, p) == Compress(INITIAL, p)
  {
    hide Compress;
    HashBlocksAppend(Sha(), INITIAL, [], p);
    assert [] + p == p;
    assert Compress(INITIAL, p) == Sha()(INITIAL, p);
  }

  lemma AbcSum(v: Chain)
    requires v == Chain(0x506e3058, 0xd39a2165, 0x04d24d6c, 0xb85e2ce9, 0x5ef50f24, 0xfb121210, 0x948d25b6, 0x961f4894)
    ensures Plus(INITIAL, v)
         == Chain(0xba7816bf, 0x8f01cfea, 0x414140de, 0x5dae2223, 0xb00361a3, 0x96177a9c, 0xb410ff61, 0xf20015ad)
  {
    assert Plus(INITIAL,
                Chain(0x506e3058, 0xd39a2165, 0x04d24d6c, 0xb85e2ce9, 0x5ef50f24, 0xfb121210, 0x948d25b6, 0x961f4894))
        == Chain(0xba7816bf, 0x8f01cfea, 0x414140de, 0x5dae2223, 0xb00361a3, 0x96177a9c, 0xb410ff61, 0xf20015ad);
  }

  lemma AbcDigest(v: Chain)
    requires v == Chain(0xba7816bf, 0x8f01cfea, 0x414140de, 0x5dae2223, 0xb00361a3, 0x96177a9c, 0xb410ff61, 0xf20015ad)
    ensures Digest(v)
      == [0xba, 0x78, 0x16, 0xbf, 0x8f, 0x01, 0xcf, 0xea, 0x41, 0x41, 0x40, 0xde, 0x5d, 0xae, 0x22, 0x23,
          0xb0, 0x03, 0x61, 0xa3, 0x96, 0x17, 0x7a, 0x9c, 0xb4, 0x10, 0xff, 0x61, 0xf2, 0x00, 0x15, 0xad]
  {
    assert Digest(Chain(0xba7816bf, 0x8f01cfea, 0x414140de, 0x5dae2223, 0xb00361a3, 0x96177a9c, 0xb410ff61, 0xf20015ad))
      == [0xba, 0x78, 0x16, 0xbf, 0x8f, 0x01, 0xcf, 0xea, 0x41, 0x41, 0x40, 0xde, 0x5d, 0xae, 0x22, 0x23,
          0xb0, 0x03, 0x61, 0xa3, 0x96, 0x17, 0x7a, 0x9c, 0xb4, 0x10, 0xff, 0x61, 0xf2, 0x00, 0x15, 0xad];
  }

  /** The hash of "abc" is the one that the standard gives. */
  lemma HashOfAbc()
    ensures Hash(ABC)
      == [0xba, 0x78, 0x16, 0xbf, 0x8f, 0x01, 0xcf, 0xea, 0x41, 0x41, 0x40, 0xde, 0x5d, 0xae, 0x22, 0x23,
          0xb0, 0x03, 0x61, 0xa3, 0x96, 0x17, 0x7a, 0x9c, 0xb4, 0x10, 0xff, 0x61, 0xf2, 0x00, 0x15, 0xad]
  {
    hide Schedule, RoundsUpTo, Padded, Digest, Plus;
    var p := Padded(ABC);
    AbcPadded(p);
    OneBlock(p);
    AbcRounds(Schedule(p, 64));
    AbcSum(RoundsUpTo(INITIAL, K, Schedule(p, 64), 64));
    AbcDigest(Compress(INITIAL, p));
  }
}

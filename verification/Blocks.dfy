/** A file in blocks: what a download has written so far, and what it is in the end. */
module Blocks {
  import opened KeyBytes

  const BLOCK_SIZE := 4096
  const TWO_TO_32: int := 0x1_0000_0000

  /** The size as it is kept in 32 bits. */
  function KeptSize(size: nat): (s: nat)
    ensures s < TWO_TO_32
  {
    size % TWO_TO_32
  }

  /** Whole blocks, and one more for a rest. */
  function BlockCount(size: nat): (n: nat)
  {
    KeptSize(size) / BLOCK_SIZE + if KeptSize(size) % BLOCK_SIZE > 0 then 1 else 0
  }

  /** How far the blocks reach into the file. */
  ghost function Covered(size: nat): nat {
    var end := BlockCount(size) * BLOCK_SIZE;
    if end < size then end else size
  }

  /** The 32-bit product of a block index and the block size. */
  function Offset(i: nat): nat {
    i * BLOCK_SIZE % TWO_TO_32
  }

  lemma OffsetDoesNotWrap(size: nat, i: nat)
    requires i < BlockCount(size)
    ensures Offset(i) == i * BLOCK_SIZE < size
  {
  }

  /** The blocks end exactly where the kept size ends, and that is the end of the file exactly
      when the size fits in 32 bits. */
  lemma BlocksTile(size: nat)
    ensures BlockCount(size) * BLOCK_SIZE - BLOCK_SIZE < KeptSize(size) <= BlockCount(size) * BLOCK_SIZE
    ensures Covered(size) == size <==> size < TWO_TO_32
  {
  }

  /** What the owner of the file answers to a request for block i: it seeks and reads. */
  function BlockOf(src: Bytes, i: nat): Bytes {
    var from := Offset(i);
    if from >= |src| then []
    else if from + BLOCK_SIZE <= |src| then src[from..from + BLOCK_SIZE]
    else src[from..]
  }

  /** Every block that is asked for exists, and only the last one may be short. */
  lemma BlockLengths(src: Bytes, i: nat)
    requires i < BlockCount(|src|)
    ensures 0 < |BlockOf(src, i)| <= BLOCK_SIZE
    ensures |BlockOf(src, i)| < BLOCK_SIZE ==>
      i + 1 == BlockCount(|src|) && |src| < TWO_TO_32 && |src| == i * BLOCK_SIZE + |BlockOf(src, i)|
  {
  }

  // ---------------------------------------------------------------- assembling

  /** The source where the bit of the block is set, and zero elsewhere. */
  ghost function Assembled(src: Bytes, bits: seq<bool>): (data: Bytes)
    ensures |data| == |src|
  {
    seq(|src|, j requires 0 <= j < |src| => if j / BLOCK_SIZE < |bits| && bits[j / BLOCK_SIZE] then src[j] else 0)
  }

  ghost predicate AllSet(bits: seq<bool>) {
    forall i :: 0 <= i < |bits| ==> bits[i]
  }

  /** A write at an offset within the file. */
  ghost function Written(data: Bytes, from: nat, block: Bytes): (r: Bytes)
    requires from + |block| <= |data|
    ensures |r| == |data|
  {
    data[..from] + block + data[from + |block|..]
  }

  lemma InBlock(i: nat, j: nat)
    ensures j / BLOCK_SIZE == i <==> i * BLOCK_SIZE <= j < i * BLOCK_SIZE + BLOCK_SIZE
  {
  }

  /** Writing one block that was missing is setting its bit. */
  lemma WritingSetsBit(src: Bytes, bits: seq<bool>, i: nat)
    requires |bits| == BlockCount(|src|) && i < |bits|
    ensures Offset(i) + |BlockOf(src, i)| <= |src|
    ensures Written(Assembled(src, bits), Offset(i), BlockOf(src, i)) == Assembled(src, bits[i := true])
  {
    OffsetDoesNotWrap(|src|, i);
    BlockLengths(src, i);
    var from, block := Offset(i), BlockOf(src, i);
    var data, after := Written(Assembled(src, bits), from, block), Assembled(src, bits[i := true]);
    forall j | 0 <= j < |src| ensures data[j] == after[j] {
      InBlock(i, j);
      if from <= j < from + |block| {
        assert block[j - from] == src[j];
      }
    }
  }

  lemma NothingYet(src: Bytes, bits: seq<bool>)
    requires forall i :: 0 <= i < |bits| ==> !bits[i]
    ensures Assembled(src, bits) == Zeros(|src|)
  {
  }

  /** All blocks together are the file as far as they reach, and zeros behind that. */
  lemma AllBlocks(src: Bytes, bits: seq<bool>)
    requires |bits| == BlockCount(|src|) && AllSet(bits)
    ensures Covered(|src|) <= |src|
    ensures Assembled(src, bits) == src[..Covered(|src|)] + Zeros(|src| - Covered(|src|))
  {
  }

  /** A complete download is the file itself, whatever the file contains, exactly when the size
      fits in 32 bits. */
  lemma CompleteIffFits(size: nat, bits: seq<bool>)
    requires |bits| == BlockCount(size) && AllSet(bits)
    ensures (forall src: Bytes :: |src| == size ==> Assembled(src, bits) == src) <==> size < TWO_TO_32
  {
    BlocksTile(size);
    if size < TWO_TO_32 {
      forall src: Bytes | |src| == size ensures Assembled(src, bits) == src {
        AllBlocks(src, bits);
      }
    } else {
      var ones: Bytes := seq(size, i => 1);
      AllBlocks(ones, bits);
      assert Assembled(ones, bits)[size - 1] == 0;
    }
  }
}

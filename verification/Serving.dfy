/** What a done download consists of when peers may serve any bytes. A tracker that is still
    downloading a file claims all of its blocks and serves what it has on disk. */
module Serving {
  import opened Circle
  import opened KeyBytes
  import opened Blocks
  import opened DownloadRuns
  import opened Download

  /** Every block arrives, with the length that the block of a file of this size has. */
  ghost predicate AllArrive(size: nat, bits: seq<bool>, peers: seq<Peer>, replies: seq<seq<Reply>>,
                            blocks: seq<Bytes>)
  {
    && |bits| == |replies| == |blocks| == BlockCount(size)
    && (forall i :: 0 <= i < |replies| ==> |replies[i]| == |peers|)
    && (forall j :: 0 <= j < |peers| ==> |bits| <= |peers[j].blocks|)
    && forall i :: 0 <= i < |blocks| ==>
         !bits[i] && FirstArrival(peers, replies[i], i, 0) == Some(blocks[i]) && |blocks[i]| == LengthOf(size, i)
  }

  /** The length of block i in a file of this size. */
  ghost function LengthOf(size: nat, i: nat): nat {
    if i * BLOCK_SIZE + BLOCK_SIZE <= size then BLOCK_SIZE
    else if i * BLOCK_SIZE <= size then size - i * BLOCK_SIZE
    else 0
  }

  lemma BlockIs(src: Bytes, i: nat)
    requires |src| < TWO_TO_32 && i < BlockCount(|src|)
    ensures Offset(i) == i * BLOCK_SIZE && Offset(i) + LengthOf(|src|, i) <= |src|
    ensures BlockOf(src, i) == src[Offset(i)..Offset(i) + LengthOf(|src|, i)]
  {
    OffsetDoesNotWrap(|src|, i);
  }

  /** A block once written stays until the end. */
  lemma {:induction false} BlockStays(data: Bytes, bits: seq<bool>, peers: seq<Peer>, replies: seq<seq<Reply>>,
                                      blocks: seq<Bytes>, j: nat, k: nat)
    requires |data| < TWO_TO_32 && AllArrive(|data|, bits, peers, replies, blocks) && j < k <= |blocks|
    ensures Offset(j) + |blocks[j]| <= |data|
    ensures FileAfter(data, bits, peers, replies, k)[Offset(j)..Offset(j) + |blocks[j]|] == blocks[j]
    decreases k
  {
    hide FirstArrival, Offset, BlockCount, BlockOf;
    BlockIs(data, j);
    BlockIs(data, k - 1);
    var before := FileAfter(data, bits, peers, replies, k - 1);
    var after := FileAfter(data, bits, peers, replies, k);
    assert after == Written(before, Offset(k - 1), blocks[k - 1]);
    if j == k - 1 {
    } else {
      BlockStays(data, bits, peers, replies, blocks, j, k - 1);
      EarlierStays(before, Offset(k - 1), blocks[k - 1], Offset(j), |blocks[j]|);
    }
  }

  lemma EarlierStays(data: Bytes, from: nat, block: Bytes, at: nat, len: nat)
    requires at + len <= from && from + |block| <= |data|
    ensures Written(data, from, block)[at..at + len] == data[at..at + len]
  {
  }

  /** A download to which every block arrives is the source exactly when every block that arrived
      is. */
  lemma RightIffServedRight(src: Bytes, data: Bytes, bits: seq<bool>, peers: seq<Peer>, replies: seq<seq<Reply>>,
                            blocks: seq<Bytes>)
    requires |data| == |src| < TWO_TO_32 && AllArrive(|src|, bits, peers, replies, blocks)
    ensures FileAfter(data, bits, peers, replies, |bits|) == src <==>
      forall i :: 0 <= i < |blocks| ==> blocks[i] == BlockOf(src, i)
  {
    hide FileAfter, FirstArrival, Offset, BlockOf, LengthOf, BlockCount;
    var end := FileAfter(data, bits, peers, replies, |bits|);
    forall i | 0 <= i < |blocks|
      ensures Offset(i) + |blocks[i]| <= |src| && end[Offset(i)..Offset(i) + |blocks[i]|] == blocks[i]
      ensures BlockOf(src, i) == src[Offset(i)..Offset(i) + |blocks[i]|]
    {
      BlockIs(src, i);
      BlockStays(data, bits, peers, replies, blocks, i, |bits|);
    }
    if forall i :: 0 <= i < |blocks| ==> blocks[i] == BlockOf(src, i) {
      forall k | 0 <= k < |src| ensures end[k] == src[k] {
        var i := InSomeBlock(src, k);
        assert blocks[i] == BlockOf(src, i);
        SameAt(end, src, Offset(i), |blocks[i]|, k);
      }
    }
  }

  lemma SameAt(s: Bytes, t: Bytes, from: nat, len: nat, k: nat)
    requires |s| == |t| && from + len <= |s| && s[from..from + len] == t[from..from + len] && from <= k < from + len
    ensures s[k] == t[k]
  {
    assert s[from..from + len][k - from] == s[k] && t[from..from + len][k - from] == t[k];
  }

  lemma InSomeBlock(src: Bytes, k: nat) returns (i: nat)
    requires |src| < TWO_TO_32 && k < |src|
    ensures i < BlockCount(|src|) && Offset(i) <= k < Offset(i) + LengthOf(|src|, i)
  {
    i := k / BLOCK_SIZE;
    BlocksTile(|src|);
    InBlock(i, k);
    OffsetDoesNotWrap(|src|, i);
  }

  /** When all blocks are those of the file `theirs` that a peer has on disk, the download ends as
      that file: with zeros when the peer has received nothing itself yet. */
  lemma ServedByUnfinished(src: Bytes, theirs: Bytes, data: Bytes, bits: seq<bool>, peers: seq<Peer>,
                           replies: seq<seq<Reply>>, blocks: seq<Bytes>)
    requires |data| == |src| == |theirs| < TWO_TO_32 && AllArrive(|src|, bits, peers, replies, blocks)
    requires forall i :: 0 <= i < |blocks| ==> blocks[i] == BlockOf(theirs, i)
    ensures FileAfter(data, bits, peers, replies, |bits|) == theirs
    ensures theirs == Zeros(|src|) ==>
      (FileAfter(data, bits, peers, replies, |bits|) == src <==> forall k :: 0 <= k < |src| ==> src[k] == 0)
  {
    hide FileAfter, FirstArrival, AllArrive;
    RightIffServedRight(theirs, data, bits, peers, replies, blocks);
  }
}

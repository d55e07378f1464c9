/** One download with its block table and its file, as the worker and the user change it. */
module Download {
  import opened Circle
  import opened KeyBytes
  import opened Blocks
  import opened DownloadRuns

  /** What became of one request for a block. */
  datatype Reply = Unreachable | NotFound | Block(data: Bytes)

  /** What became of asking a listed peer which blocks it has. */
  datatype Answer = Dead | Empty | Has(blocks: seq<bool>)

  datatype Peer = Peer(node: Key, blocks: seq<bool>)

  /** The answers after which the next listed peer is asked: all but the empty ones. */
  ghost function Useful(answers: seq<Answer>): (r: seq<Answer>)
    ensures |r| <= |answers|
    ensures forall i :: 0 <= i < |r| ==> r[i] in answers
  {
    if answers == [] then []
    else
      var front, last := answers[..|answers| - 1], answers[|answers| - 1];
      Useful(front) + if last.Empty? then [] else [last]
  }

  /** The asked peers that are alive, in order, with the tables they sent. */
  ghost function Alive(asked: seq<Key>, useful: seq<Answer>): seq<Peer>
    requires |asked| == |useful|
    decreases |asked|
  {
    if asked == [] then []
    else
      var last := |asked| - 1;
      Alive(asked[..last], useful[..last])
      + if useful[last].Has? then [Peer(asked[last], useful[last].blocks)] else []
  }

  /** How many of the listed peers have been dealt with after these answers. */
  ghost function DealtWith(listed: seq<Key>, answers: seq<Answer>): (k: nat)
    ensures k <= |listed| && k <= |Useful(answers)|
    ensures k == |listed| || k == |Useful(answers)|
  {
    if |Useful(answers)| < |listed| then |Useful(answers)| else |listed|
  }

  /** The peers gathered from these answers. */
  ghost function Gathered(listed: seq<Key>, answers: seq<Answer>): seq<Peer> {
    var k := DealtWith(listed, answers);
    Alive(listed[..k], Useful(answers)[..k])
  }

  /** How many of the answers are not empty ones. */
  ghost function CountUseful(answers: seq<Answer>): nat {
    if answers == [] then 0
    else CountUseful(answers[..|answers| - 1]) + if answers[|answers| - 1].Empty? then 0 else 1
  }

  /** Every answer but the empty ones is kept, at the place that the ones before it leave it. */
  lemma {:induction false} UsefulAt(answers: seq<Answer>, i: nat)
    requires i < |answers| && !answers[i].Empty?
    ensures |Useful(answers)| == CountUseful(answers)
    ensures CountUseful(answers[..i]) < |Useful(answers)| && Useful(answers)[CountUseful(answers[..i])] == answers[i]
  {
    UsefulCount(answers);
    var front := answers[..|answers| - 1];
    UsefulCount(front);
    if i == |answers| - 1 {
    } else {
      assert front[..i] == answers[..i];
      UsefulAt(front, i);
    }
  }

  lemma {:induction false} UsefulCount(answers: seq<Answer>)
    ensures |Useful(answers)| == CountUseful(answers)
  {
    if answers == [] {
    } else {
      UsefulCount(answers[..|answers| - 1]);
    }
  }

  ghost function CountAlive(useful: seq<Answer>): nat {
    if useful == [] then 0
    else CountAlive(useful[..|useful| - 1]) + if useful[|useful| - 1].Has? then 1 else 0
  }

  /** Each peer that sent a table is in the array with it, behind those that were asked before it. */
  lemma {:induction false} AliveAt(asked: seq<Key>, useful: seq<Answer>, i: nat)
    requires |asked| == |useful| && i < |useful| && useful[i].Has?
    ensures |Alive(asked, useful)| == CountAlive(useful)
    ensures CountAlive(useful[..i]) < |Alive(asked, useful)|
    ensures Alive(asked, useful)[CountAlive(useful[..i])] == Peer(asked[i], useful[i].blocks)
  {
    AliveCount(asked, useful);
    var last := |asked| - 1;
    AliveCount(asked[..last], useful[..last]);
    if i == last {
    } else {
      assert useful[..last][..i] == useful[..i];
      AliveAt(asked[..last], useful[..last], i);
    }
  }

  lemma {:induction false} AliveCount(asked: seq<Key>, useful: seq<Answer>)
    requires |asked| == |useful|
    ensures |Alive(asked, useful)| == CountAlive(useful)
  {
    if asked == [] {
    } else {
      AliveCount(asked[..|asked| - 1], useful[..|useful| - 1]);
    }
  }

  /** Once a listed peer only ever answers with an empty table the questions go on for ever. */
  lemma {:induction false} EmptyForEver(answers: seq<Answer>, more: seq<Answer>)
    requires forall i :: 0 <= i < |more| ==> more[i].Empty?
    ensures Useful(answers + more) == Useful(answers)
    decreases |more|
  {
    if more == [] {
      assert answers + more == answers;
    } else {
      var last := |more| - 1;
      assert (answers + more)[..|answers| + last] == answers + more[..last];
      EmptyForEver(answers, more[..last]);
    }
  }

  lemma OneMore(answers: seq<Answer>, i: nat)
    requires i < |answers|
    ensures Useful(answers[..i + 1])
         == if answers[i].Empty? then Useful(answers[..i]) else Useful(answers[..i]) + [answers[i]]
  {
    assert answers[..i + 1][..i] == answers[..i];
  }

  lemma {:induction false} UsefulGrows(answers: seq<Answer>, i: nat)
    requires i <= |answers|
    ensures Useful(answers[..i]) <= Useful(answers)
    decreases |answers| - i
  {
    if i == |answers| {
      assert answers[..i] == answers;
    } else {
      OneMore(answers, i);
      UsefulGrows(answers, i + 1);
    }
  }

  lemma OneMoreAlive(listed: seq<Key>, useful: seq<Answer>, answer: Answer)
    requires |useful| < |listed|
    ensures Alive(listed[..|useful| + 1], useful + [answer])
         == if answer.Has? then Alive(listed[..|useful|], useful) + [Peer(listed[|useful|], answer.blocks)]
            else Alive(listed[..|useful|], useful)
  {
    var k := |useful|;
    assert listed[..k + 1][..k] == listed[..k] && (useful + [answer])[..k] == useful;
  }

  lemma NoneGathered(listed: seq<Key>, answers: seq<Answer>)
    ensures Useful(answers[..0]) == [] && Alive(listed[..0], []) == []
  {
  }

  lemma AllGathered(listed: seq<Key>, answers: seq<Answer>, j: nat)
    requires j <= |answers| && |Useful(answers[..j])| <= |listed|
    requires j == |answers| || |Useful(answers[..j])| == |listed|
    ensures Gathered(listed, answers) == Alive(listed[..|Useful(answers[..j])|], Useful(answers[..j]))
    ensures |listed| <= |Useful(answers)| <==> |Useful(answers[..j])| == |listed|
  {
    UsefulGrows(answers, j);
    assert answers[..|answers|] == answers;
    var k := |Useful(answers[..j])|;
    assert k == DealtWith(listed, answers) && Useful(answers)[..k] == Useful(answers[..j]);
  }

  /** Some peer that claims the block, and its answer arrives. */
  ghost predicate Delivered(peers: seq<Peer>, replies: seq<Reply>, i: nat) {
    exists j :: 0 <= j < |peers| && j < |replies| && i < |peers[j].blocks| && peers[j].blocks[i] && replies[j].Block?
  }

  /** The first block that arrives when the peers from j on are asked. */
  ghost function FirstArrival(peers: seq<Peer>, replies: seq<Reply>, i: nat, j: nat): (r: Option<Bytes>)
    requires |replies| == |peers| && j <= |peers| && forall k :: 0 <= k < |peers| ==> i < |peers[k].blocks|
    ensures r.Some? ==> exists k ::
      && j <= k < |peers| && peers[k].blocks[i] && replies[k] == Block(r.value)
      && forall m :: j <= m < k ==> !(peers[m].blocks[i] && replies[m].Block?)
    ensures r.None? ==> forall m :: j <= m < |peers| ==> !(peers[m].blocks[i] && replies[m].Block?)
    decreases |peers| - j
  {
    if j == |peers| then None
    else if peers[j].blocks[i] && replies[j].Block? then Some(replies[j].data)
    else FirstArrival(peers, replies, i, j + 1)
  }

  lemma {:induction false} ArrivalIsDelivery(peers: seq<Peer>, replies: seq<Reply>, i: nat, j: nat)
    requires |replies| == |peers| && j <= |peers| && forall k :: 0 <= k < |peers| ==> i < |peers[k].blocks|
    requires forall k :: 0 <= k < j ==> !(peers[k].blocks[i] && replies[k].Block?)
    ensures FirstArrival(peers, replies, i, j).Some? <==> Delivered(peers, replies, i)
    decreases |peers| - j
  {
    if j == |peers| || (peers[j].blocks[i] && replies[j].Block?) {
    } else {
      ArrivalIsDelivery(peers, replies, i, j + 1);
    }
  }

  lemma StateKeeps(before: Job, job: Job, state: State)
    requires JobOk(job) && JobGrows(before, job) && before.state != Done
    requires state == Done ==> AllSet(job.bits)
    ensures JobOk(job.(state := state)) && JobGrows(before, job.(state := state))
  {
  }

  /** The download once a block, if any, has been written. */
  ghost function Arrived(job: Job, i: nat, block: Option<Bytes>): Job
    requires i < |job.bits| && (block.Some? ==> Offset(i) + |block.value| <= |job.data|)
  {
    if block.None? then job
    else job.(bits := job.bits[i := true], data := Written(job.data, Offset(i), block.value))
  }

  /** The file once what arrived for block i, if anything, has been written. */
  ghost function WithArrival(data: Bytes, i: nat, block: Option<Bytes>): (r: Bytes)
    ensures |r| == |data|
  {
    if block.Some? && Offset(i) + |block.value| <= |data| then Written(data, Offset(i), block.value) else data
  }

  /** The file after the first k blocks have been asked for, without a pause. */
  ghost function FileAfter(data: Bytes, bits: seq<bool>, peers: seq<Peer>, replies: seq<seq<Reply>>, k: nat): (r: Bytes)
    requires k <= |bits| == |replies| && forall i :: 0 <= i < |replies| ==> |replies[i]| == |peers|
    requires forall j :: 0 <= j < |peers| ==> |bits| <= |peers[j].blocks|
    ensures |r| == |data|
  {
    if k == 0 then data
    else
      var before := FileAfter(data, bits, peers, replies, k - 1);
      if bits[k - 1] then before else WithArrival(before, k - 1, FirstArrival(peers, replies[k - 1], k - 1, 0))
  }

  lemma NothingArrived(data: Bytes, bits: seq<bool>, peers: seq<Peer>, replies: seq<seq<Reply>>)
    requires |bits| == |replies| && forall i :: 0 <= i < |replies| ==> |replies[i]| == |peers|
    requires forall j :: 0 <= j < |peers| ==> |bits| <= |peers[j].blocks|
    ensures FileAfter(data, bits, peers, replies, 0) == data
  {
  }

  lemma OneMoreArrived(data: Bytes, bits: seq<bool>, peers: seq<Peer>, replies: seq<seq<Reply>>, k: nat)
    requires k < |bits| == |replies| && forall i :: 0 <= i < |replies| ==> |replies[i]| == |peers|
    requires forall j :: 0 <= j < |peers| ==> |bits| <= |peers[j].blocks|
    ensures var before := FileAfter(data, bits, peers, replies, k);
      FileAfter(data, bits, peers, replies, k + 1)
      == if bits[k] then before else WithArrival(before, k, FirstArrival(peers, replies[k], k, 0))
  {
  }

  /** Peer k is the first that claims block i and whose answer arrives. */
  ghost predicate IsFirst(peers: seq<Peer>, replies: seq<Reply>, i: nat, k: nat)
    requires |replies| == |peers| && forall m :: 0 <= m < |peers| ==> i < |peers[m].blocks|
  {
    && k < |peers| && peers[k].blocks[i] && replies[k].Block?
    && forall m :: 0 <= m < k ==> !(peers[m].blocks[i] && replies[m].Block?)
  }

  lemma {:induction false} FirstIsArrival(peers: seq<Peer>, replies: seq<Reply>, i: nat, j: nat, k: nat)
    requires |replies| == |peers| && forall m :: 0 <= m < |peers| ==> i < |peers[m].blocks|
    requires j <= k && IsFirst(peers, replies, i, k)
    ensures FirstArrival(peers, replies, i, j) == Some(replies[k].data)
    decreases k - j
  {
    if j == k {
    } else {
      FirstIsArrival(peers, replies, i, j + 1, k);
    }
  }

  /** As much of a reply as belongs to its block. */
  ghost function InItsBlock(data: Bytes): (n: nat)
    ensures n <= |data| && n <= BLOCK_SIZE && n in {|data|, BLOCK_SIZE}
  {
    if |data| < BLOCK_SIZE then |data| else BLOCK_SIZE
  }

  lemma WrittenAt(data: Bytes, from: nat, block: Bytes, p: nat)
    requires from + |block| <= |data| && p < |data|
    ensures Written(data, from, block)[p] == if from <= p < from + |block| then block[p - from] else data[p]
  {
  }

  /** Each block that was missing is what the first peer sent that delivered it. */
  lemma {:induction false} FirstIsWritten(data: Bytes, bits: seq<bool>, peers: seq<Peer>, replies: seq<seq<Reply>>,
                                          n: nat, i: nat, k: nat)
    requires i < n <= |bits| == |replies| == BlockCount(|data|) && !bits[i]
    requires forall i :: 0 <= i < |replies| ==> |replies[i]| == |peers|
    requires forall j :: 0 <= j < |peers| ==> |bits| <= |peers[j].blocks|
    requires IsFirst(peers, replies[i], i, k) && Offset(i) + |replies[i][k].data| <= |data|
    ensures var d := replies[i][k].data;
      FileAfter(data, bits, peers, replies, n)[Offset(i)..Offset(i) + InItsBlock(d)] == d[..InItsBlock(d)]
    decreases n
  {
    hide FirstArrival, Written, Offset;
    OffsetDoesNotWrap(|data|, i);
    OffsetDoesNotWrap(|data|, n - 1);
    var before := FileAfter(data, bits, peers, replies, n - 1);
    var d := replies[i][k].data;
    FirstIsArrival(peers, replies[i], i, 0, k);
    if n == i + 1 {
      forall p | Offset(i) <= p < Offset(i) + |d| {
        WrittenAt(before, Offset(i), d, p);
      }
    } else {
      FirstIsWritten(data, bits, peers, replies, n - 1, i, k);
      LaterKeeps(before, n - 1, FirstArrival(peers, replies[n - 1], n - 1, 0), Offset(i), InItsBlock(d));
    }
  }

  lemma LaterKeeps(data: Bytes, i: nat, block: Option<Bytes>, from: nat, n: nat)
    requires from + n <= Offset(i) && from + n <= |data|
    ensures WithArrival(data, i, block)[from..from + n] == data[from..from + n]
  {
  }

  /** No reply is longer than a block. */
  ghost predicate Short(replies: seq<seq<Reply>>) {
    forall i, k :: 0 <= i < |replies| && 0 <= k < |replies[i]| && replies[i][k].Block? ==>
      |replies[i][k].data| <= BLOCK_SIZE
  }

  /** The block was there already, or nobody delivers it, or the table does not reach so far. */
  ghost predicate NotServed(bits: seq<bool>, peers: seq<Peer>, replies: seq<seq<Reply>>, i: nat)
    requires |bits| == |replies|
  {
    i >= |bits| || bits[i] || !Delivered(peers, replies[i], i)
  }

  /** A block that was there already or that nobody delivers stays as it was, when no reply is longer
      than a block. */
  lemma {:induction false} OthersStay(data: Bytes, bits: seq<bool>, peers: seq<Peer>, replies: seq<seq<Reply>>,
                                      n: nat, p: nat)
    requires n <= |bits| == |replies| == BlockCount(|data|) && p < |data|
    requires forall i :: 0 <= i < |replies| ==> |replies[i]| == |peers|
    requires forall j :: 0 <= j < |peers| ==> |bits| <= |peers[j].blocks|
    requires Short(replies) && NotServed(bits, peers, replies, p / BLOCK_SIZE)
    ensures FileAfter(data, bits, peers, replies, n)[p] == data[p]
    decreases n
  {
    hide Offset, Written;
    if n == 0 {
    } else {
      OthersStay(data, bits, peers, replies, n - 1, p);
      OffsetDoesNotWrap(|data|, n - 1);
      var before, block := FileAfter(data, bits, peers, replies, n - 1), FirstArrival(peers, replies[n - 1], n - 1, 0);
      InBlock(n - 1, p);
      if block.Some? && Offset(n - 1) + |block.value| <= |data| {
        WrittenAt(before, Offset(n - 1), block.value, p);
      }
    }
  }

  /** Every block that was missing is, in the file afterwards, what the first peer sent that delivered
      it; when no reply is longer than a block, everything else is as it was. */
  lemma FirstsAreWritten(data: Bytes, bits: seq<bool>, peers: seq<Peer>, replies: seq<seq<Reply>>)
    requires |bits| == |replies| == BlockCount(|data|)
    requires forall i :: 0 <= i < |replies| ==> |replies[i]| == |peers|
    requires forall j :: 0 <= j < |peers| ==> |bits| <= |peers[j].blocks|
    ensures var after := FileAfter(data, bits, peers, replies, |bits|);
      forall i, k :: 0 <= i < |bits| && !bits[i] && 0 <= k < |peers| && IsFirst(peers, replies[i], i, k) ==>
        var d := replies[i][k].data;
        i * BLOCK_SIZE + |d| <= |data| ==>
          after[i * BLOCK_SIZE..i * BLOCK_SIZE + InItsBlock(d)] == d[..InItsBlock(d)]
    ensures var after := FileAfter(data, bits, peers, replies, |bits|);
      Short(replies) ==>
        forall p :: 0 <= p < |data| && NotServed(bits, peers, replies, p / BLOCK_SIZE) ==> after[p] == data[p]
  {
    hide IsFirst, Delivered, FileAfter, Offset;
    var after := FileAfter(data, bits, peers, replies, |bits|);
    forall i, k | 0 <= i < |bits| && !bits[i] && 0 <= k < |peers| && IsFirst(peers, replies[i], i, k)
      ensures replies[i][k].Block?
      ensures var d := replies[i][k].data;
        i * BLOCK_SIZE + |d| <= |data| ==>
          after[i * BLOCK_SIZE..i * BLOCK_SIZE + InItsBlock(d)] == d[..InItsBlock(d)]
    {
      OffsetDoesNotWrap(|data|, i);
      FirstIsBlock(peers, replies[i], i, k);
      if i * BLOCK_SIZE + |replies[i][k].data| <= |data| {
        FirstIsWritten(data, bits, peers, replies, |bits|, i, k);
      }
    }
    if Short(replies) {
      forall p | 0 <= p < |data| && NotServed(bits, peers, replies, p / BLOCK_SIZE) ensures after[p] == data[p] {
        OthersStay(data, bits, peers, replies, |bits|, p);
      }
    }
  }

  lemma FirstIsBlock(peers: seq<Peer>, replies: seq<Reply>, i: nat, k: nat)
    requires |replies| == |peers| && (forall m :: 0 <= m < |peers| ==> i < |peers[m].blocks|)
    requires IsFirst(peers, replies, i, k)
    ensures k < |peers| && replies[k].Block?
  {
  }

  /** When the block is the source's, the step of DownloadRuns has been taken. */
  lemma HonestArrival(job: Job, i: nat)
    requires JobOk(job) && i < |job.bits|
    ensures Offset(i) + |BlockOf(job.src, i)| <= |job.data|
    ensures Arrived(job, i, Some(BlockOf(job.src, i))) == Received(job, i)
  {
    WritingSetsBit(job.src, job.bits, i);
  }

  class Download {
    const id: Key
    var state: State
    const blocks: array<bool>
    /** The file on disk. */
    const data: array<Byte>
    var peers: seq<Peer>

    /** The file that the peers own. */
    ghost const src: Bytes

    ghost predicate Valid()
      reads this, blocks, data
    {
      && blocks.Length == BlockCount(|src|) && data.Length == |src|
      && forall j :: 0 <= j < |peers| ==> |peers[j].blocks| >= blocks.Length
    }

    ghost function View(): Job
      reads this, blocks, data
    {
      Job(id, src, state, blocks[..], data[..])
    }

    /** There is a reply of every peer, and what arrives does not reach beyond the file. */
    ghost predicate Fits(replies: seq<Reply>, i: nat)
      reads this`peers
    {
      && |replies| == |peers|
      && forall j :: 0 <= j < |replies| && replies[j].Block? ==> Offset(i) + |replies[j].data| <= data.Length
    }

    /** Every answer that arrives is the block of the source. */
    ghost predicate Honest(replies: seq<Reply>, i: nat)
      reads this`peers
    {
      |replies| == |peers| && forall j :: 0 <= j < |replies| && replies[j].Block? ==> replies[j].data == BlockOf(src, i)
    }

    constructor (id: Key, size: nat, ghost src: Bytes)
      requires |src| == size
      ensures Valid() && View() == NewJob(id, src) && peers == [] && fresh(blocks) && fresh(data)
      ensures this.id == id && this.src == src && state == Idle && data.Length == size
      ensures (forall i :: 0 <= i < blocks.Length ==> !blocks[i]) && forall k :: 0 <= k < size ==> data[k] == 0
    {
      this.id := id;
      this.src := src;
      state := Idle;
      peers := [];
      data := new Byte[size](i => 0);
      blocks := new bool[BlockCount(size)](i => false);
      new;
      assert blocks[..] == NewJob(id, src).bits;
      assert data[..] == Zeros(|src|);
    }

    /** Asks the listed peers one after the other for their block tables, an empty table being
        asked for again at once. `answers` are what the requests bring, in order; `finished` tells
        whether they are enough for the loop to end. */
    method InitPeers(listed: seq<Key>, answers: seq<Answer>) returns (finished: bool)
      requires Valid() && forall j :: 0 <= j < |answers| && answers[j].Has? ==> |answers[j].blocks| >= blocks.Length
      modifies this`peers
      ensures Valid() && peers == Gathered(listed, answers)
      ensures finished <==> |listed| <= |Useful(answers)|
    {
      hide Useful, Alive, Gathered, DealtWith;
      NoneGathered(listed, answers);
      peers := [];
      var p, j := 0, 0;
      while p < |listed| && j < |answers|
        invariant 0 <= p <= |listed| && 0 <= j <= |answers| && Valid()
        invariant p == |Useful(answers[..j])| && peers == Alive(listed[..p], Useful(answers[..j]))
        decreases |answers| - j
      {
        OneMore(answers, j);
        OneMoreAlive(listed, Useful(answers[..j]), answers[j]);
        if answers[j].Has? {
          peers := peers + [Peer(listed[p], answers[j].blocks)];
        }
        if !answers[j].Empty? { // otherwise asked again
          p := p + 1;
        }
        j := j + 1;
      }
      finished := p == |listed|;
      AllGathered(listed, answers, j);
    }

    method WriteAt(from: nat, block: Bytes)
      requires from + |block| <= data.Length
      modifies data
      ensures data[..] == Written(old(data[..]), from, block)
    {
      forall k | 0 <= k < |block| {
        data[from + k] := block[k];
      }
    }

    /** Goes through the peers until one of them delivers the block; whatever arrives is written. */
    method TryPeers(i: nat, replies: seq<Reply>)
      requires Valid() && i < blocks.Length && Fits(replies, i)
      modifies blocks, data
      ensures Valid() && View() == Arrived(old(View()), i, FirstArrival(peers, replies, i, 0))
      ensures forall k :: 0 <= k < |peers| && IsFirst(peers, replies, i, k) ==>
        data[..] == Written(old(data[..]), Offset(i), replies[k].data) && blocks[..] == old(blocks[..])[i := true]
      ensures (forall k :: 0 <= k < |peers| ==> !(peers[k].blocks[i] && replies[k].Block?)) ==>
        data[..] == old(data[..]) && blocks[..] == old(blocks[..])
    {
      hide FirstArrival, Written;
      var j := 0;
      while j < |peers|
        invariant 0 <= j <= |peers| && View() == old(View())
        invariant data[..] == old(data[..]) && blocks[..] == old(blocks[..])
        invariant forall m :: 0 <= m < j ==> !(peers[m].blocks[i] && replies[m].Block?)
      {
        if peers[j].blocks[i] && replies[j].Block? {
          FirstIsArrival(peers, replies, i, 0, j);
          WriteAt(Offset(i), replies[j].data);
          blocks[i] := true;
          assert blocks[..] == old(blocks[..])[i := true];
          return;
        }
        j := j + 1;
      }
    }

    /** The section under the lock, for block i; false when the worker has to stop. */
    method AtBlock(i: nat, replies: seq<Reply>) returns (running: bool)
      requires Valid() && i < blocks.Length && Fits(replies, i)
      modifies blocks, data
      ensures Valid() && running == (state == Running)
      ensures View() == if running && !old(blocks[i]) then Arrived(old(View()), i, FirstArrival(peers, replies, i, 0))
                        else old(View())
    {
      if state != Running {
        return false;
      }
      if !blocks[i] {
        TryPeers(i, replies);
      }
      return true;
    }

    method PauseNow() returns (ok: bool)
      modifies this`state
      ensures ok <==> old(state) == Running
      ensures state == if ok then Paused else old(state)
    {
      ok := state == Running;
      if ok {
        state := Paused;
      }
    }

    /** The whole loop of one worker. The user may pause before each time the lock is taken. */
    method Start(pauses: seq<bool>, replies: seq<seq<Reply>>)
      requires Valid() && state in {Running, Paused}
      requires |replies| == blocks.Length && |pauses| == blocks.Length + 1
      requires forall i :: 0 <= i < |replies| ==> |replies[i]| == |peers| && Fits(replies[i], i)
      modifies this`state, blocks, data
      ensures Valid() && state in {Paused, Done}
      ensures state == Done <==> old(state) == Running && true !in pauses && AllSet(blocks[..])
      ensures old(state) == Running && true !in pauses ==>
        && (forall i :: 0 <= i < blocks.Length ==> blocks[i] == (old(blocks[i]) || Delivered(peers, replies[i], i)))
        && data[..] == FileAfter(old(data[..]), old(blocks[..]), peers, replies, blocks.Length)
      ensures old(state) == Running && true !in pauses ==>
        forall i, k ::
          0 <= i < blocks.Length && !old(blocks[i]) && 0 <= k < |peers| && IsFirst(peers, replies[i], i, k) ==>
          var d := replies[i][k].data;
          i * BLOCK_SIZE + |d| <= data.Length ==>
            data[i * BLOCK_SIZE..i * BLOCK_SIZE + InItsBlock(d)] == d[..InItsBlock(d)]
      ensures old(state) == Running && true !in pauses && Short(replies) ==>
        forall p :: 0 <= p < data.Length && NotServed(old(blocks[..]), peers, replies, p / BLOCK_SIZE) ==>
          data[p] == old(data[p])
      ensures old(JobOk(View())) && (forall i :: 0 <= i < |replies| ==> Honest(replies[i], i)) ==>
        JobOk(View()) && JobGrows(old(View()), View())
    {
      hide JobOk, JobGrows, Delivered, FirstArrival, FileAfter, WithArrival, Honest, IsFirst;
      hide NotServed, Short, InItsBlock;
      ghost var before := View();
      ghost var honest := JobOk(before) && forall i :: 0 <= i < |replies| ==> Honest(replies[i], i);
      JobStays(before);
      FirstsAreWritten(before.data, before.bits, peers, replies);
      var ok := EachBlock(pauses, replies, before, honest);
      assert pauses == pauses[..|pauses| - 1] + [pauses[|pauses| - 1]];
      Finish(pauses[blocks.Length], ok, before, honest);
    }

    /** The blocks one after the other; ok when none is missing at the end. */
    method EachBlock(pauses: seq<bool>, replies: seq<seq<Reply>>, ghost before: Job, ghost honest: bool)
      returns (ok: bool)
      requires Valid() && state in {Running, Paused} && before == View() && JobGrows(before, before)
      requires |replies| == blocks.Length && |pauses| == blocks.Length + 1
      requires forall i :: 0 <= i < |replies| ==> |replies[i]| == |peers| && Fits(replies[i], i)
      requires honest ==> JobOk(before) && forall i :: 0 <= i < |replies| ==> Honest(replies[i], i)
      modifies this`state, blocks, data
      ensures Valid() && state in {Running, Paused}
      ensures honest ==> JobOk(View()) && JobGrows(before, View())
      ensures state == Running <==> before.state == Running && true !in pauses[..blocks.Length]
      ensures state == Running ==>
        && ok == AllSet(blocks[..])
        && (forall k :: 0 <= k < blocks.Length ==> blocks[k] == (before.bits[k] || Delivered(peers, replies[k], k)))
        && data[..] == FileAfter(before.data, before.bits, peers, replies, blocks.Length)
    {
      hide JobOk, JobGrows, Delivered, FirstArrival, FileAfter, WithArrival, Honest, Fits, IsFirst;
      NothingArrived(data[..], blocks[..], peers, replies);
      ok := true;
      var running, i := true, 0;
      while running && i < blocks.Length
        invariant 0 <= i <= blocks.Length && Valid()
        invariant honest ==> JobOk(View()) && JobGrows(before, View())
        invariant state in {Running, Paused} && (running || state == Paused)
        invariant state == Running <==> before.state == Running && true !in pauses[..i]
        invariant ok <==> forall k :: 0 <= k < i ==> blocks[k]
        invariant forall k :: i <= k < blocks.Length ==> blocks[k] == before.bits[k]
        invariant state == Running ==>
          forall k :: 0 <= k < i ==> blocks[k] == (before.bits[k] || Delivered(peers, replies[k], k))
        invariant state == Running ==> data[..] == FileAfter(before.data, before.bits, peers, replies, i)
        decreases blocks.Length - i
      {
        assert pauses[..i + 1] == pauses[..i] + [pauses[i]];
        running := OnePass(i, pauses[i], replies[i], before, honest);
        if running {
          OneMoreArrived(before.data, before.bits, peers, replies, i);
        }
        if !blocks[i] {
          ok := false;
        }
        i := i + 1;
      }
    }

    /** One pass of the loop: perhaps a pause, and then the section under the lock. */
    method OnePass(i: nat, pause: bool, replies: seq<Reply>, ghost before: Job, ghost honest: bool)
      returns (running: bool)
      requires Valid() && i < blocks.Length && Fits(replies, i) && state in {Running, Paused}
      requires before.state != Done
      requires honest ==> JobOk(View()) && JobGrows(before, View()) && Honest(replies, i)
      modifies this`state, blocks, data
      ensures Valid() && running == (state == Running)
      ensures state == if pause && old(state) == Running then Paused else old(state)
      ensures forall k :: 0 <= k < blocks.Length && k != i ==> blocks[k] == old(blocks[k])
      ensures blocks[i] == (old(blocks[i]) || (running && Delivered(peers, replies, i)))
      ensures running ==> data[..] == if old(blocks[i]) then old(data[..])
                                      else WithArrival(old(data[..]), i, FirstArrival(peers, replies, i, 0))
      ensures honest ==> JobOk(View()) && JobGrows(before, View())
    {
      hide JobOk, Delivered, FirstArrival, WithArrival;
      if pause {
        if honest {
          StateKeeps(before, View(), Paused);
        }
        var _ := PauseNow();
      }
      ghost var mid := View();
      running := OneBlock(i, replies);
    }

    /** The last section under the lock. */
    method Finish(pause: bool, ok: bool, ghost before: Job, ghost honest: bool)
      requires Valid() && before.state != Done && (ok && state == Running ==> AllSet(blocks[..]))
      requires honest ==> JobOk(View()) && JobGrows(before, View())
      modifies this`state
      ensures Valid() && state == if old(state) != Running then old(state) else if pause || !ok then Paused else Done
      ensures honest ==> JobOk(View()) && JobGrows(before, View())
    {
      hide JobOk, JobGrows;
      ghost var now := View();
      if honest {
        StateKeeps(before, now, Paused);
      }
      if pause {
        var _ := PauseNow();
      }
      if state == Running {
        if ok && honest {
          StateKeeps(before, now, Done);
        }
        state := if ok then Done else Paused;
      }
    }

    /** The section for block i with what it keeps. */
    method OneBlock(i: nat, replies: seq<Reply>) returns (running: bool)
      requires Valid() && i < blocks.Length && Fits(replies, i) && state in {Running, Paused}
      modifies blocks, data
      ensures Valid() && running == (state == Running)
      ensures forall k :: 0 <= k < blocks.Length && k != i ==> blocks[k] == old(blocks[k])
      ensures blocks[i] == (old(blocks[i]) || (running && Delivered(peers, replies, i)))
      ensures running ==> data[..] == if old(blocks[i]) then old(data[..])
                                      else WithArrival(old(data[..]), i, FirstArrival(peers, replies, i, 0))
      ensures old(JobOk(View())) && Honest(replies, i) ==> JobOk(View()) && JobGrows(old(View()), View())
    {
      hide JobOk, Delivered, Received;
      ghost var before := View();
      JobStays(before);
      ArrivalIsDelivery(peers, replies, i, 0);
      running := AtBlock(i, replies);
      if JobOk(before) && Honest(replies, i) {
        HonestArrival(before, i);
        if running && !before.bits[i] && Delivered(peers, replies, i) {
          ReceivedKeeps(before, i);
        }
      }
      assert forall k :: 0 <= k < blocks.Length ==> blocks[k] == View().bits[k];
    }
  }
}

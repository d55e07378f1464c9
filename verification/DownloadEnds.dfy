/** How a download ends that one worker takes through all its blocks, and what becomes of one that its
    worker cannot open. */
module DownloadEnds {
  import opened Circle
  import opened KeyBytes
  import opened Blocks
  import opened DownloadRuns

  /** The steps of worker w for the blocks that are left; arrives[0] tells of the first of them. */
  ghost function BlockSteps(w: nat, arrives: seq<bool>): seq<Step>
    decreases |arrives|
  {
    if arrives == [] then [Finish(w)] + []
    else [TryBlock(w, arrives[0])] + ([CheckBlock(w)] + BlockSteps(w, arrives[1..]))
  }

  /** What the worker has from block i on is what was there or arrived. */
  ghost predicate BitsAfter(before: seq<bool>, i: nat, arrives: seq<bool>, after: seq<bool>) {
    && |after| == |before| == i + |arrives|
    && forall k :: 0 <= k < |before| ==> after[k] == (before[k] || (k >= i && arrives[k - i]))
  }

  /** No flag was unset before, and no block is missing. */
  ghost predicate Complete(bits: seq<bool>, i: nat, ok: bool) {
    ok && forall k :: i <= k < |bits| ==> bits[k]
  }

  /** Worker w has left download j in this state with these blocks, and nothing else has changed. */
  ghost predicate Left(sys: Sys, after: Sys, w: nat, j: nat, state: State)
    requires w < |sys.workers| && j < |sys.jobs|
  {
    && after.workers == sys.workers[w := Looking] && |after.jobs| == |sys.jobs|
    && (forall k :: 0 <= k < |sys.jobs| && k != j ==> after.jobs[k] == sys.jobs[k])
    && after.jobs[j].state == state && after.jobs[j].id == sys.jobs[j].id && after.jobs[j].src == sys.jobs[j].src
  }

  lemma LastStep(sys: Sys, w: nat, j: nat, ok: bool)
    requires w < |sys.workers| && sys.workers[w] == Finishing(j, ok) && j < |sys.jobs| && sys.jobs[j].state == Running
    ensures var after := Apply(sys, Finish(w));
      Left(sys, after, w, j, if ok then Done else Paused) && after.jobs[j].bits == sys.jobs[j].bits
  {
  }

  /** One pass of the loop. */
  lemma OnePass(sys: Sys, w: nat, j: nat, i: nat, ok: bool, arrives: bool)
    requires w < |sys.workers| && sys.workers[w] == Locking(j, i, ok) && AtBlock(sys.jobs, j, i)
    requires sys.jobs[j].state == Running
    ensures var job := sys.jobs[j];
      var next := if job.bits[i] || !arrives then job else Received(job, i);
      && next.bits == job.bits[i := job.bits[i] || arrives] && next.state == Running
      && next.id == job.id && next.src == job.src
      && Apply(Apply(sys, TryBlock(w, arrives)), CheckBlock(w))
         == SetWorker(SetJob(sys, j, next), w, NextBlock(next, j, i + 1, ok && next.bits[i]))
  {
    hide Written, BlockOf, Offset;
  }

  lemma BitsOneMore(before: seq<bool>, mid: seq<bool>, i: nat, arrives: seq<bool>, after: seq<bool>)
    requires arrives != [] && i < |before| && mid == before[i := before[i] || arrives[0]]
    requires BitsAfter(mid, i + 1, arrives[1..], after)
    ensures BitsAfter(before, i, arrives, after)
    ensures forall ok :: Complete(after, i + 1, ok && mid[i]) <==> Complete(after, i, ok)
  {
    forall k | 0 <= k < |before| ensures after[k] == (before[k] || (k >= i && arrives[k - i])) {
      if k > i {
        assert arrives[1..][k - i - 1] == arrives[k - i];
      }
    }
  }

  /** A worker that is not paused leaves its download done when no block is missing in the end, and
      paused otherwise, to be tried again; blocks that were there or arrive stay. */
  lemma {:induction false} WorkerEnds(sys: Sys, w: nat, j: nat, i: nat, ok: bool, arrives: seq<bool>)
    requires w < |sys.workers| && j < |sys.jobs| && sys.jobs[j].state == Running
    requires i + |arrives| == |sys.jobs[j].bits| && sys.workers[w] == NextBlock(sys.jobs[j], j, i, ok)
    ensures AllObey(sys, BlockSteps(w, arrives))
    ensures var after := Exec(sys, BlockSteps(w, arrives));
      && j < |after.jobs| && BitsAfter(sys.jobs[j].bits, i, arrives, after.jobs[j].bits)
      && Left(sys, after, w, j, if Complete(after.jobs[j].bits, i, ok) then Done else Paused)
    decreases |arrives|
  {
    hide Apply, BitsAfter, Complete, Left;
    if arrives == [] {
      LastStep(sys, w, j, ok);
      ExecStep(sys, Finish(w), []);
      ExecNone(Apply(sys, Finish(w)));
      NothingLeft(sys.jobs[j].bits, i, ok);
    } else {
      var rest := BlockSteps(w, arrives[1..]);
      var mid := Apply(sys, TryBlock(w, arrives[0]));
      var next := Apply(mid, CheckBlock(w));
      OnePass(sys, w, j, i, ok, arrives[0]);
      ExecStep(sys, TryBlock(w, arrives[0]), [CheckBlock(w)] + rest);
      ExecStep(mid, CheckBlock(w), rest);
      var bits := next.jobs[j].bits;
      WorkerEnds(next, w, j, i + 1, ok && bits[i], arrives[1..]);
      var after := Exec(next, rest);
      BitsOneMore(sys.jobs[j].bits, bits, i, arrives, after.jobs[j].bits);
      LeftFrom(sys, next, after, w, j, if Complete(after.jobs[j].bits, i, ok) then Done else Paused);
    }
  }

  lemma NothingLeft(bits: seq<bool>, i: nat, ok: bool)
    requires i == |bits|
    ensures BitsAfter(bits, i, [], bits) && (Complete(bits, i, ok) <==> ok)
  {
  }

  lemma LeftFrom(sys: Sys, next: Sys, after: Sys, w: nat, j: nat, state: State)
    requires w < |sys.workers| && j < |sys.jobs| && |next.jobs| == |sys.jobs|
    requires exists job, worker :: next == SetWorker(SetJob(sys, j, job), w, worker)
                                   && job.id == sys.jobs[j].id && job.src == sys.jobs[j].src
    requires Left(next, after, w, j, state)
    ensures Left(sys, after, w, j, state)
  {
  }

  /** A file that is added, taken and opened ends done exactly when every block arrives, and is then
      the file of its peers when the size fits in 32 bits. */
  lemma DownloadEndsDone(id: Key, src: Bytes, arrives: seq<bool>)
    requires |arrives| == BlockCount(|src|)
    ensures var steps := [AddNew(id, src)] + ([Claim(0)] + ([Open(0, true)] + BlockSteps(0, arrives)));
      var sys := Exec(Initial(), steps);
      && AllObey(Initial(), steps) && |sys.jobs| == 1 && sys.jobs[0].id == id && sys.jobs[0].src == src
      && sys.jobs[0].bits == arrives
      && sys.jobs[0].state == (if AllSet(arrives) then Done else Paused)
      && (AllSet(arrives) && |src| < TWO_TO_32 ==> sys.jobs[0].data == src)
  {
    hide AllObey, Exec, BitsAfter, Complete, Left, BlockSteps, Written, BlockCount;
    var job := NewJob(id, src);
    var s1, s2 := Apply(Initial(), AddNew(id, src)), Lone(job.(state := Running), Opening(0), Looking);
    assert s1 == Lone(job, Looking, Looking) && Apply(s1, Claim(0)) == s2;
    var s3 := Apply(s2, Open(0, true));
    assert s3.jobs == s2.jobs && s3.workers[0] == NextBlock(s2.jobs[0], 0, 0, true) && |job.bits| == |arrives|;
    var rest := BlockSteps(0, arrives);
    ExecStep(Initial(), AddNew(id, src), [Claim(0)] + ([Open(0, true)] + rest));
    ExecStep(s1, Claim(0), [Open(0, true)] + rest);
    ExecStep(s2, Open(0, true), rest);
    WorkerEnds(s3, 0, 0, 0, true, arrives);
    var steps := [AddNew(id, src)] + ([Claim(0)] + ([Open(0, true)] + rest));
    assert Exec(Initial(), steps) == Exec(s3, rest);
    OnlyArrived(s3, Exec(s3, rest), arrives);
    if AllSet(arrives) {
      DoneMeansComplete(steps, 0);
    }
  }

  lemma OnlyArrived(sys: Sys, after: Sys, arrives: seq<bool>)
    requires |sys.workers| > 0 && |sys.jobs| == 1 && |after.jobs| > 0
    requires forall k :: 0 <= k < |sys.jobs[0].bits| ==> !sys.jobs[0].bits[k]
    requires BitsAfter(sys.jobs[0].bits, 0, arrives, after.jobs[0].bits)
    requires Left(sys, after, 0, 0, if Complete(after.jobs[0].bits, 0, true) then Done else Paused)
    ensures |after.jobs| == 1 && after.jobs[0].bits == arrives
    ensures after.jobs[0].state == if AllSet(arrives) then Done else Paused
    ensures after.jobs[0].id == sys.jobs[0].id && after.jobs[0].src == sys.jobs[0].src
  {
  }

  // ---------------------------------------------------------------- a file that does not open

  /** A worker that cannot open its file goes back to looking. Its download stays running without a
      worker, and no claim picks it up; it takes a pause and a new request to make it idle again. */
  lemma FailedOpenStrands(sys: Sys, w: nat, w': nat)
    requires Inv(sys) && w < |sys.workers| && sys.workers[w].Opening? && w' < |sys.workers|
    requires sys.workers[w].job < |sys.jobs| && sys.jobs[sys.workers[w].job].state == Running
    ensures var j, after := sys.workers[w].job, Apply(sys, Open(w, false));
      && after.jobs == sys.jobs && (forall v :: 0 <= v < |after.workers| ==> !WorksOn(after.workers[v], j))
      && !WorksOn(Apply(after, Claim(w')).workers[w'], j)
      && Apply(Apply(after, Pause(j)), AddAgain(j)).jobs[j] == sys.jobs[j].(state := Idle)
  {
    assert WorkerAtOk(sys, w) && WorkerAtOk(sys, w');
    var j, after := sys.workers[w].job, Apply(sys, Open(w, false));
    forall v | 0 <= v < |after.workers| ensures !WorksOn(after.workers[v], j) {
      assert Alone(sys, v, w);
    }
  }
}

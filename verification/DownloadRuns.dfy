/** Workers and a user acting on the downloads, one lock-protected step at a time. */
module DownloadRuns {
  import opened Circle
  import opened KeyBytes
  import opened Blocks

  datatype State = Idle | Running | Paused | Done

  /** One download; src is the file that its peers own. */
  datatype Job = Job(id: Key, src: Bytes, state: State, bits: seq<bool>, data: Bytes)

  ghost function NewJob(id: Key, src: Bytes): Job {
    Job(id, src, Idle, seq(BlockCount(|src|), i => false), Zeros(|src|))
  }

  /** Where a worker is in its loop; ok is the flag blocks_received. */
  datatype Worker =
    | Looking
    | Opening(job: nat)
    | Locking(job: nat, i: nat, ok: bool)
    | Checking(job: nat, i: nat, ok: bool, running: bool)
    | Finishing(job: nat, ok: bool)

  ghost predicate WorksOn(w: Worker, j: nat) {
    !w.Looking? && w.job == j
  }

  datatype Sys = Sys(jobs: seq<Job>, workers: seq<Worker>)

  const POOL := 2

  ghost function Initial(): Sys {
    Sys([], seq(POOL, i => Looking))
  }

  datatype Step =
    | Claim(w: nat)
    | Open(w: nat, works: bool)
    | TryBlock(w: nat, received: bool)
    | CheckBlock(w: nat)
    | Finish(w: nat)
    | Pause(job: nat)
    | AddAgain(job: nat)
    | AddNew(id: Key, src: Bytes)

  // ---------------------------------------------------------------- the steps

  ghost function Claimed(job: Job): Job {
    if job.state == Idle then job.(state := Running) else job
  }

  /** The scan marks every idle download, and does not stop at the first. */
  ghost function ClaimedAll(jobs: seq<Job>): (r: seq<Job>)
    ensures |r| == |jobs| && forall j :: 0 <= j < |r| ==> r[j] == Claimed(jobs[j])
  {
    seq(|jobs|, j requires 0 <= j < |jobs| => Claimed(jobs[j]))
  }

  /** The index it is left with is the last one. */
  ghost function LastIdle(jobs: seq<Job>): (r: Option<nat>)
    ensures r.Some? ==> r.value < |jobs| && jobs[r.value].state == Idle
    ensures r.Some? ==> forall j :: r.value < j < |jobs| ==> jobs[j].state != Idle
    ensures r.None? ==> forall j :: 0 <= j < |jobs| ==> jobs[j].state != Idle
  {
    if jobs == [] then None
    else if jobs[|jobs| - 1].state == Idle then Some(|jobs| - 1)
    else LastIdle(jobs[..|jobs| - 1])
  }

  /** Entering the loop at block i, or leaving it. */
  ghost function NextBlock(job: Job, j: nat, i: nat, ok: bool): Worker {
    if i < |job.bits| then Locking(j, i, ok) else Finishing(j, ok)
  }

  ghost function Received(job: Job, i: nat): Job
    requires i < |job.bits|
  {
    var from, block := Offset(i), BlockOf(job.src, i);
    job.(bits := job.bits[i := true],
         data := if from + |block| <= |job.data| then Written(job.data, from, block) else job.data)
  }

  ghost function Finished(job: Job, ok: bool): Job {
    if job.state == Running then job.(state := if ok then Done else Paused) else job
  }

  ghost function SetWorker(sys: Sys, w: nat, worker: Worker): Sys
    requires w < |sys.workers|
  {
    sys.(workers := sys.workers[w := worker])
  }

  ghost function SetJob(sys: Sys, j: nat, job: Job): Sys
    requires j < |sys.jobs|
  {
    sys.(jobs := sys.jobs[j := job])
  }

  /** Where the download with this id is listed. */
  ghost function Listed(jobs: seq<Job>, id: Key): (r: Option<nat>)
    ensures r.Some? ==> r.value < |jobs| && jobs[r.value].id == id && forall j :: 0 <= j < r.value ==> jobs[j].id != id
    ensures r.None? ==> forall j :: 0 <= j < |jobs| ==> jobs[j].id != id
  {
    if jobs == [] then None
    else
      var front := Listed(jobs[..|jobs| - 1], id);
      if front.Some? then front
      else if jobs[|jobs| - 1].id == id then Some(|jobs| - 1)
      else None
  }

  /** What the user's request to download a file does to the list: a paused download becomes idle
      again, another listed one stays as it is, and a new one is put at the end. */
  ghost function Added(jobs: seq<Job>, id: Key, src: Bytes): seq<Job> {
    match Listed(jobs, id)
    case Some(j) => if jobs[j].state == Paused then jobs[j := jobs[j].(state := Idle)] else jobs
    case None => jobs + [NewJob(id, src)]
  }

  /** The first listed download with this id is made idle when it is paused, and nothing else changes;
      without one a new download is listed behind the others. */
  lemma AddedExactly(jobs: seq<Job>, id: Key, src: Bytes)
    ensures (exists j :: 0 <= j < |jobs| && jobs[j].id == id) ==>
      && |Added(jobs, id, src)| == |jobs|
      && forall j :: 0 <= j < |jobs| ==>
           var first := jobs[j].id == id && forall i :: 0 <= i < j ==> jobs[i].id != id;
           Added(jobs, id, src)[j] == if first && jobs[j].state == Paused then jobs[j].(state := Idle) else jobs[j]
    ensures (forall j :: 0 <= j < |jobs| ==> jobs[j].id != id) ==> Added(jobs, id, src) == jobs + [NewJob(id, src)]
  {
    hide Listed, NewJob;
  }

  ghost predicate AtBlock(jobs: seq<Job>, j: nat, i: nat) {
    j < |jobs| && i < |jobs[j].bits|
  }

  /** A step that is not possible changes nothing. */
  ghost function Apply(sys: Sys, step: Step): Sys {
    match step
    case Claim(w) =>
      if w < |sys.workers| && sys.workers[w].Looking? then
        var found := LastIdle(sys.jobs);
        SetWorker(sys.(jobs := ClaimedAll(sys.jobs)), w, if found.Some? then Opening(found.value) else Looking)
      else sys
    case Open(w, works) =>
      if w < |sys.workers| && sys.workers[w].Opening? && sys.workers[w].job < |sys.jobs| then
        var j := sys.workers[w].job;
        SetWorker(sys, w, if works then NextBlock(sys.jobs[j], j, 0, true) else Looking)
      else sys
    case TryBlock(w, received) =>
      if w < |sys.workers| && sys.workers[w].Locking? && AtBlock(sys.jobs, sys.workers[w].job, sys.workers[w].i) then
        var Locking(j, i, ok) := sys.workers[w];
        var job := sys.jobs[j];
        if job.state != Running then SetWorker(sys, w, Checking(j, i, ok, false))
        else if job.bits[i] || !received then SetWorker(sys, w, Checking(j, i, ok, true))
        else SetWorker(SetJob(sys, j, Received(job, i)), w, Checking(j, i, ok, true))
      else sys
    case CheckBlock(w) =>
      if w < |sys.workers| && sys.workers[w].Checking? && AtBlock(sys.jobs, sys.workers[w].job, sys.workers[w].i) then
        var Checking(j, i, ok, running) := sys.workers[w];
        var ok' := ok && sys.jobs[j].bits[i];
        SetWorker(sys, w, if running then NextBlock(sys.jobs[j], j, i + 1, ok') else Finishing(j, ok'))
      else sys
    case Finish(w) =>
      if w < |sys.workers| && sys.workers[w].Finishing? && sys.workers[w].job < |sys.jobs| then
        var Finishing(j, ok) := sys.workers[w];
        SetWorker(SetJob(sys, j, Finished(sys.jobs[j], ok)), w, Looking)
      else sys
    case Pause(j) =>
      if j < |sys.jobs| && sys.jobs[j].state == Running then SetJob(sys, j, sys.jobs[j].(state := Paused)) else sys
    case AddAgain(j) =>
      if j < |sys.jobs| && sys.jobs[j].state == Paused then SetJob(sys, j, sys.jobs[j].(state := Idle)) else sys
    case AddNew(id, src) =>
      if forall j :: 0 <= j < |sys.jobs| ==> sys.jobs[j].id != id
      then sys.(jobs := sys.jobs + [NewJob(id, src)])
      else sys
  }

  /** The request is one of the two steps, as the id is listed or not. */
  lemma AddedIsAStep(sys: Sys, id: Key, src: Bytes)
    ensures var step := match Listed(sys.jobs, id) case Some(j) => AddAgain(j) case None => AddNew(id, src);
      Apply(sys, step).jobs == Added(sys.jobs, id, src)
    ensures Listed(sys.jobs, id).Some? ==> Apply(sys, AddNew(id, src)) == sys
  {
  }

  /** A paused download is only added again when no worker is at it any more. */
  ghost predicate Obeys(sys: Sys, step: Step) {
    step.AddAgain? ==> forall w :: 0 <= w < |sys.workers| ==> !WorksOn(sys.workers[w], step.job)
  }

  // ---------------------------------------------------------------- the invariant

  ghost predicate JobOk(job: Job) {
    && |job.bits| == BlockCount(|job.src|)
    && job.data == Assembled(job.src, job.bits)
    && (job.state == Done ==> AllSet(job.bits))
  }

  ghost predicate SetBelow(bits: seq<bool>, i: nat)
    requires i <= |bits|
  {
    forall k :: 0 <= k < i ==> bits[k]
  }

  /** What a worker may rely on for the download it is at. */
  ghost predicate WorkerOk(worker: Worker, job: Job) {
    && job.state in {Running, Paused}
    && match worker
       case Looking => true
       case Opening(_) => true
       case Locking(_, i, ok) => i < |job.bits| && (ok ==> SetBelow(job.bits, i))
       case Checking(_, i, ok, running) =>
         i < |job.bits| && (ok ==> SetBelow(job.bits, i)) && (!running ==> job.state == Paused)
       case Finishing(_, ok) => ok ==> AllSet(job.bits) || job.state == Paused
  }

  ghost predicate WorkerAtOk(sys: Sys, w: nat)
    requires w < |sys.workers|
  {
    var worker := sys.workers[w];
    !worker.Looking? ==> worker.job < |sys.jobs| && WorkerOk(worker, sys.jobs[worker.job])
  }

  ghost predicate Alone(sys: Sys, v: nat, w: nat)
    requires v < |sys.workers| && w < |sys.workers|
  {
    v != w && !sys.workers[v].Looking? && !sys.workers[w].Looking? ==> sys.workers[v].job != sys.workers[w].job
  }

  ghost predicate Inv(sys: Sys) {
    && (forall j :: 0 <= j < |sys.jobs| ==> JobOk(sys.jobs[j]))
    && (forall w {:trigger WorkerAtOk(sys, w)} :: 0 <= w < |sys.workers| ==> WorkerAtOk(sys, w))
    && (forall v, w {:trigger Alone(sys, v, w)} ::
      0 <= v < |sys.workers| && 0 <= w < |sys.workers| ==> Alone(sys, v, w))
  }

  /** Bits are only ever set, and what is done stays done. */
  ghost predicate JobGrows(job: Job, job': Job) {
    && job'.id == job.id && job'.src == job.src && |job'.bits| == |job.bits|
    && (forall i :: 0 <= i < |job.bits| && job.bits[i] ==> job'.bits[i])
    && (job.state == Done ==> job' == job)
  }

  ghost predicate Grows(sys: Sys, sys': Sys) {
    && |sys.jobs| <= |sys'.jobs|
    && forall j {:trigger sys'.jobs[j]} :: 0 <= j < |sys.jobs| ==> JobGrows(sys.jobs[j], sys'.jobs[j])
  }

  // ---------------------------------------------------------------- every step keeps it

  /** One worker moves on and its download changes. */
  lemma WorkerMoves(sys: Sys, w: nat, worker: Worker, job: Job)
    requires Inv(sys) && w < |sys.workers| && !sys.workers[w].Looking?
    requires worker.Looking? || (worker.job == sys.workers[w].job && WorkerOk(worker, job))
    requires JobOk(job) && sys.workers[w].job < |sys.jobs| && JobGrows(sys.jobs[sys.workers[w].job], job)
    ensures var sys' := SetWorker(SetJob(sys, sys.workers[w].job, job), w, worker);
      Inv(sys') && Grows(sys, sys')
  {
    hide JobOk, WorkerOk, JobGrows;
    var j := sys.workers[w].job;
    var sys' := SetWorker(SetJob(sys, j, job), w, worker);
    forall v | 0 <= v < |sys'.workers| ensures WorkerAtOk(sys', v) {
      assert WorkerAtOk(sys, v) && Alone(sys, v, w);
    }
    forall u, v | 0 <= u < |sys'.workers| && 0 <= v < |sys'.workers| ensures Alone(sys', u, v) {
      assert Alone(sys, u, v);
    }
    assert forall k :: 0 <= k < |sys.jobs| && k != j ==> sys'.jobs[k] == sys.jobs[k];
    GrowsAt(sys, sys', j);
  }

  lemma JobStays(job: Job)
    ensures JobGrows(job, job)
  {
  }

  /** The same without a change of the download. */
  lemma WorkerGoesOn(sys: Sys, w: nat, worker: Worker)
    requires Inv(sys) && w < |sys.workers| && !sys.workers[w].Looking? && sys.workers[w].job < |sys.jobs|
    requires worker.Looking? || (worker.job == sys.workers[w].job && WorkerOk(worker, sys.jobs[worker.job]))
    ensures Inv(SetWorker(sys, w, worker)) && Grows(sys, SetWorker(sys, w, worker))
  {
    hide JobOk, WorkerOk, JobGrows;
    var job := sys.jobs[sys.workers[w].job];
    JobStays(job);
    WorkerMoves(sys, w, worker, job);
    assert sys.jobs[sys.workers[w].job := job] == sys.jobs;
  }

  lemma GrowsAt(sys: Sys, sys': Sys, j: nat)
    requires |sys'.jobs| == |sys.jobs| && j < |sys.jobs| && JobGrows(sys.jobs[j], sys'.jobs[j])
    requires forall k :: 0 <= k < |sys.jobs| && k != j ==> sys'.jobs[k] == sys.jobs[k]
    ensures Grows(sys, sys')
  {
  }

  /** The user changes the state of a download; its worker, if it has one, can live with it. */
  lemma StateChanges(sys: Sys, j: nat, state: State)
    requires Inv(sys) && j < |sys.jobs| && state != Done && sys.jobs[j].state != Done
    requires state == Paused || forall w :: 0 <= w < |sys.workers| ==> !WorksOn(sys.workers[w], j)
    ensures var sys' := SetJob(sys, j, sys.jobs[j].(state := state));
      Inv(sys') && Grows(sys, sys')
  {
    var sys' := SetJob(sys, j, sys.jobs[j].(state := state));
    forall k | 0 <= k < |sys'.jobs| ensures JobOk(sys'.jobs[k]) {
      assert JobOk(sys.jobs[k]);
    }
    forall w | 0 <= w < |sys'.workers| ensures WorkerAtOk(sys', w) {
      assert WorkerAtOk(sys, w);
    }
    forall v, w | 0 <= v < |sys'.workers| && 0 <= w < |sys'.workers| ensures Alone(sys', v, w) {
      assert Alone(sys, v, w);
    }
    GrowsAt(sys, sys', j);
  }

  lemma ClaimKeeps(sys: Sys, w: nat)
    requires Inv(sys)
    ensures Inv(Apply(sys, Claim(w))) && Grows(sys, Apply(sys, Claim(w)))
  {
    hide SetBelow, AllSet;
    var sys' := Apply(sys, Claim(w));
    forall j | 0 <= j < |sys.jobs| ensures JobOk(sys'.jobs[j]) && JobGrows(sys.jobs[j], sys'.jobs[j]) {
      assert JobOk(sys.jobs[j]);
    }
    forall v | 0 <= v < |sys'.workers| ensures WorkerAtOk(sys', v) {
      assert WorkerAtOk(sys, v);
    }
    forall u, v | 0 <= u < |sys'.workers| && 0 <= v < |sys'.workers| ensures Alone(sys', u, v) {
      assert Alone(sys, u, v) && WorkerAtOk(sys, u) && WorkerAtOk(sys, v);
    }
  }

  lemma OpenKeeps(sys: Sys, w: nat, works: bool)
    requires Inv(sys)
    ensures Inv(Apply(sys, Open(w, works))) && Grows(sys, Apply(sys, Open(w, works)))
  {
    if w < |sys.workers| && sys.workers[w].Opening? {
      assert WorkerAtOk(sys, w);
      var j := sys.workers[w].job;
      WorkerGoesOn(sys, w, if works then NextBlock(sys.jobs[j], j, 0, true) else Looking);
    }
    SameGrows(sys);
  }

  lemma SameGrows(sys: Sys)
    ensures Grows(sys, sys)
  {
  }

  lemma ReceivedKeeps(job: Job, i: nat)
    requires JobOk(job) && job.state == Running && i < |job.bits|
    ensures JobOk(Received(job, i)) && JobGrows(job, Received(job, i))
  {
    WritingSetsBit(job.src, job.bits, i);
  }

  lemma TryKeeps(sys: Sys, w: nat, received: bool)
    requires Inv(sys)
    ensures Inv(Apply(sys, TryBlock(w, received))) && Grows(sys, Apply(sys, TryBlock(w, received)))
  {
    hide Received, JobOk;
    if w < |sys.workers| && sys.workers[w].Locking? {
      assert WorkerAtOk(sys, w);
      var Locking(j, i, ok) := sys.workers[w];
      var job := sys.jobs[j];
      if job.state != Running {
        WorkerGoesOn(sys, w, Checking(j, i, ok, false));
      } else if job.bits[i] || !received {
        WorkerGoesOn(sys, w, Checking(j, i, ok, true));
      } else {
        ReceivedKeeps(job, i);
        ReceivedState(job, i);
        WorkerMoves(sys, w, Checking(j, i, ok, true), Received(job, i));
      }
    }
    SameGrows(sys);
  }

  lemma ReceivedState(job: Job, i: nat)
    requires i < |job.bits|
    ensures Received(job, i).state == job.state
  {
  }

  lemma CheckKeeps(sys: Sys, w: nat)
    requires Inv(sys)
    ensures Inv(Apply(sys, CheckBlock(w))) && Grows(sys, Apply(sys, CheckBlock(w)))
  {
    hide JobOk;
    if w < |sys.workers| && sys.workers[w].Checking? {
      assert WorkerAtOk(sys, w);
      var Checking(j, i, ok, running) := sys.workers[w];
      var job := sys.jobs[j];
      var ok' := ok && job.bits[i];
      WorkerGoesOn(sys, w, if running then NextBlock(job, j, i + 1, ok') else Finishing(j, ok'));
    }
    SameGrows(sys);
  }

  lemma FinishKeeps(sys: Sys, w: nat)
    requires Inv(sys)
    ensures Inv(Apply(sys, Finish(w))) && Grows(sys, Apply(sys, Finish(w)))
  {
    if w < |sys.workers| && sys.workers[w].Finishing? {
      assert WorkerAtOk(sys, w);
      var Finishing(j, ok) := sys.workers[w];
      assert JobOk(sys.jobs[j]);
      WorkerMoves(sys, w, Looking, Finished(sys.jobs[j], ok));
    }
    SameGrows(sys);
  }

  lemma AddNewKeeps(sys: Sys, id: Key, src: Bytes)
    requires Inv(sys)
    ensures Inv(Apply(sys, AddNew(id, src))) && Grows(sys, Apply(sys, AddNew(id, src)))
  {
    var sys' := Apply(sys, AddNew(id, src));
    NothingYet(src, NewJob(id, src).bits);
    BlocksTile(|src|);
    forall w | 0 <= w < |sys'.workers| ensures WorkerAtOk(sys', w) {
      assert WorkerAtOk(sys, w);
    }
    forall v, w | 0 <= v < |sys'.workers| && 0 <= w < |sys'.workers| ensures Alone(sys', v, w) {
      assert Alone(sys, v, w);
    }
    assert forall j :: 0 <= j < |sys.jobs| ==> sys'.jobs[j] == sys.jobs[j];
  }

  lemma StepKeeps(sys: Sys, step: Step)
    requires Inv(sys) && Obeys(sys, step)
    ensures Inv(Apply(sys, step)) && Grows(sys, Apply(sys, step))
  {
    match step
    case Claim(w) => ClaimKeeps(sys, w);
    case Open(w, works) => OpenKeeps(sys, w, works);
    case TryBlock(w, received) => TryKeeps(sys, w, received);
    case CheckBlock(w) => CheckKeeps(sys, w);
    case Finish(w) => FinishKeeps(sys, w);
    case Pause(j) =>
      SameGrows(sys);
      if j < |sys.jobs| && sys.jobs[j].state == Running {
        StateChanges(sys, j, Paused);
      }
    case AddAgain(j) =>
      SameGrows(sys);
      if j < |sys.jobs| && sys.jobs[j].state == Paused {
        StateChanges(sys, j, Idle);
      }
    case AddNew(id, src) => AddNewKeeps(sys, id, src);
  }

  // ---------------------------------------------------------------- whole runs

  ghost function Exec(sys: Sys, steps: seq<Step>): Sys
    decreases |steps|
  {
    if steps == [] then sys else Exec(Apply(sys, steps[0]), steps[1..])
  }

  ghost predicate AllObey(sys: Sys, steps: seq<Step>)
    decreases |steps|
  {
    steps == [] || (Obeys(sys, steps[0]) && AllObey(Apply(sys, steps[0]), steps[1..]))
  }

  lemma GrowsOn(a: Sys, b: Sys, c: Sys)
    requires Grows(a, b) && Grows(b, c)
    ensures Grows(a, c)
  {
  }

  /** Between any two points of a run bits are only set, and what is done stays done. */
  lemma {:induction false} RunKeeps(sys: Sys, steps: seq<Step>)
    requires Inv(sys) && AllObey(sys, steps)
    ensures Inv(Exec(sys, steps)) && Grows(sys, Exec(sys, steps))
    decreases |steps|
  {
    hide Apply, Inv, Obeys, Grows;
    if steps == [] {
      SameGrows(sys);
    } else {
      StepKeeps(sys, steps[0]);
      RunKeeps(Apply(sys, steps[0]), steps[1..]);
      GrowsOn(sys, Apply(sys, steps[0]), Exec(sys, steps));
    }
  }

  /** Nothing is lost in a run: every download stays listed with its blocks, and what is done stays as
      it is. */
  lemma RunLosesNothing(sys: Sys, steps: seq<Step>, j: nat)
    requires Inv(sys) && AllObey(sys, steps) && j < |sys.jobs|
    ensures var end := Exec(sys, steps);
      && j < |end.jobs| && end.jobs[j].id == sys.jobs[j].id && end.jobs[j].src == sys.jobs[j].src
      && |end.jobs[j].bits| == |sys.jobs[j].bits|
      && (forall i :: 0 <= i < |sys.jobs[j].bits| && sys.jobs[j].bits[i] ==> end.jobs[j].bits[i])
      && (sys.jobs[j].state == Done ==> end.jobs[j] == sys.jobs[j])
  {
    hide Exec, AllObey, Inv;
    RunKeeps(sys, steps);
    assert JobGrows(sys.jobs[j], Exec(sys, steps).jobs[j]);
  }

  /** Whatever the workers and the user do, no download ever has two workers. */
  lemma OneWorkerEach(steps: seq<Step>, v: nat, w: nat)
    requires AllObey(Initial(), steps)
    requires v < |Exec(Initial(), steps).workers| && w < |Exec(Initial(), steps).workers| && v != w
    ensures forall j ::
      !(WorksOn(Exec(Initial(), steps).workers[v], j) && WorksOn(Exec(Initial(), steps).workers[w], j))
  {
    RunKeeps(Initial(), steps);
    assert Alone(Exec(Initial(), steps), v, w);
  }

  /** A download that is done has every block, and is the file as far as 32-bit sizes reach. */
  lemma DoneMeansComplete(steps: seq<Step>, j: nat)
    requires AllObey(Initial(), steps) && j < |Exec(Initial(), steps).jobs|
    requires Exec(Initial(), steps).jobs[j].state == Done
    ensures var job := Exec(Initial(), steps).jobs[j];
      && |job.bits| == BlockCount(|job.src|) && AllSet(job.bits)
      && Covered(|job.src|) <= |job.src|
      && job.data == job.src[..Covered(|job.src|)] + Zeros(|job.src| - Covered(|job.src|))
      && (|job.src| < TWO_TO_32 ==> job.data == job.src)
  {
    RunKeeps(Initial(), steps);
    var job := Exec(Initial(), steps).jobs[j];
    assert JobOk(job);
    AllBlocks(job.src, job.bits);
    BlocksTile(|job.src|);
  }

  // ---------------------------------------------------------------- what does not hold

  lemma ExecStep(sys: Sys, step: Step, rest: seq<Step>)
    ensures Exec(sys, [step] + rest) == Exec(Apply(sys, step), rest)
    ensures AllObey(sys, [step] + rest) <==> Obeys(sys, step) && AllObey(Apply(sys, step), rest)
  {
  }

  /** A scan can leave a running download without a worker: it marks two and takes one. */
  lemma RunningWithoutWorker(a: Key, b: Key, src: Bytes)
    requires a != b
    ensures var steps := [AddNew(a, src)] + ([AddNew(b, src)] + ([Claim(0)] + []));
      var sys := Exec(Initial(), steps);
      && AllObey(Initial(), steps)
      && |sys.jobs| == 2 && sys.jobs[0].state == Running
      && forall w :: 0 <= w < |sys.workers| ==> !WorksOn(sys.workers[w], 0)
  {
    var s1 := Apply(Initial(), AddNew(a, src));
    var s2 := Apply(s1, AddNew(b, src));
    ExecStep(Initial(), AddNew(a, src), [AddNew(b, src)] + ([Claim(0)] + []));
    ExecStep(s1, AddNew(b, src), [Claim(0)] + []);
    ExecStep(s2, Claim(0), []);
  }

  ghost function Lone(job: Job, worker: Worker, other: Worker): Sys {
    Sys([job], [worker, other])
  }

  /** A file of two blocks is added; its first block arrives, its second does not. */
  ghost function FirstBlockOnly(id: Key, src: Bytes): seq<Step> {
    [AddNew(id, src)] + ([Claim(0)] + ([Open(0, true)] + ([TryBlock(0, true)] + ([CheckBlock(0)]
    + ([TryBlock(0, false)] + ([CheckBlock(0)] + ([Finish(0)] + [])))))))
  }

  /** Then it is added again, paused at once, and added again while its worker has not left yet. */
  ghost function TooEarly(): seq<Step> {
    [AddAgain(0)] + ([Claim(0)] + ([Open(0, true)] + ([Pause(0)] + ([TryBlock(0, true)] + ([CheckBlock(0)]
    + ([AddAgain(0)] + ([Claim(1)] + ([Finish(0)] + []))))))))
  }

  /** Without the assumption on adding again a run can end with a download done that lacks a block;
      only the last of its requests breaks the assumption. */
  lemma DoneButIncomplete(id: Key, src: Bytes)
    requires BlockCount(|src|) == 2
    ensures AllObey(Initial(), FirstBlockOnly(id, src))
    ensures var sys := Exec(Initial(), FirstBlockOnly(id, src) + TooEarly());
      |sys.jobs| == 1 && sys.jobs[0].state == Done && sys.jobs[0].src == src && !AllSet(sys.jobs[0].bits)
    ensures !AllObey(Initial(), FirstBlockOnly(id, src) + TooEarly())
  {
    hide Apply, AllObey, Exec, FirstGot, NewJob, BlockCount;
    var first := FirstGot(id, src);
    ReachesFirst(id, src);
    EndsIncomplete(first.(state := Paused));
    ExecJoin(Initial(), FirstBlockOnly(id, src), TooEarly());
  }

  ghost function FirstGot(id: Key, src: Bytes): (job: Job)
    requires BlockCount(|src|) == 2
    ensures job.bits == [true, false] && job.src == src
  {
    Received(NewJob(id, src), 0)
  }

  lemma {:induction false} ExecJoin(sys: Sys, steps: seq<Step>, more: seq<Step>)
    ensures Exec(sys, steps + more) == Exec(Exec(sys, steps), more)
    ensures AllObey(sys, steps + more) <==> AllObey(sys, steps) && AllObey(Exec(sys, steps), more)
    decreases |steps|
  {
    hide Apply, Obeys;
    if steps == [] {
      assert steps + more == more;
    } else {
      assert (steps + more)[1..] == steps[1..] + more;
      ExecJoin(Apply(sys, steps[0]), steps[1..], more);
    }
  }

  lemma ReachesFirst(id: Key, src: Bytes)
    requires BlockCount(|src|) == 2
    ensures AllObey(Initial(), FirstBlockOnly(id, src))
    ensures Exec(Initial(), FirstBlockOnly(id, src)) == Lone(FirstGot(id, src).(state := Paused), Looking, Looking)
  {
    hide Apply, AllObey, Exec, FirstGot, NewJob;
    var running := NewJob(id, src).(state := Running);
    var got := FirstGot(id, src).(state := Running);
    var r8: seq<Step> := [Finish(0)] + [];
    var r7 := [CheckBlock(0)] + r8;
    var r6 := [TryBlock(0, false)] + r7;
    var r5 := [CheckBlock(0)] + r6;
    var r4 := [TryBlock(0, true)] + r5;
    var r3 := [Open(0, true)] + r4;
    var r2 := [Claim(0)] + r3;
    FirstBlockMoves(id, src);
    SecondBlockMoves(got);
    ExecStep(Initial(), AddNew(id, src), r2);
    ExecStep(Lone(NewJob(id, src), Looking, Looking), Claim(0), r3);
    ExecStep(Lone(running, Opening(0), Looking), Open(0, true), r4);
    ExecStep(Lone(running, Locking(0, 0, true), Looking), TryBlock(0, true), r5);
    ExecStep(Lone(got, Checking(0, 0, true, true), Looking), CheckBlock(0), r6);
    ExecStep(Lone(got, Locking(0, 1, true), Looking), TryBlock(0, false), r7);
    ExecStep(Lone(got, Checking(0, 1, true, true), Looking), CheckBlock(0), r8);
    ExecStep(Lone(got, Finishing(0, false), Looking), Finish(0), []);
    ExecNone(Lone(got.(state := Paused), Looking, Looking));
  }

  lemma FirstBlockMoves(id: Key, src: Bytes)
    requires BlockCount(|src|) == 2
    ensures var job := NewJob(id, src);
      var running, got := job.(state := Running), FirstGot(id, src).(state := Running);
      && Apply(Initial(), AddNew(id, src)) == Lone(job, Looking, Looking)
      && Apply(Lone(job, Looking, Looking), Claim(0)) == Lone(running, Opening(0), Looking)
      && Apply(Lone(running, Opening(0), Looking), Open(0, true)) == Lone(running, Locking(0, 0, true), Looking)
      && Apply(Lone(running, Locking(0, 0, true), Looking), TryBlock(0, true))
        == Lone(got, Checking(0, 0, true, true), Looking)
  {
    hide Written, BlockOf, Offset;
  }

  lemma SecondBlockMoves(got: Job)
    requires got.state == Running && got.bits == [true, false]
    ensures Apply(Lone(got, Checking(0, 0, true, true), Looking), CheckBlock(0))
      == Lone(got, Locking(0, 1, true), Looking)
    ensures Apply(Lone(got, Locking(0, 1, true), Looking), TryBlock(0, false))
      == Lone(got, Checking(0, 1, true, true), Looking)
    ensures Apply(Lone(got, Checking(0, 1, true, true), Looking), CheckBlock(0))
      == Lone(got, Finishing(0, false), Looking)
    ensures Apply(Lone(got, Finishing(0, false), Looking), Finish(0)) == Lone(got.(state := Paused), Looking, Looking)
  {
  }

  lemma EndsIncomplete(job: Job)
    requires job.state == Paused && job.bits == [true, false]
    ensures Exec(Lone(job, Looking, Looking), TooEarly()) == Lone(job.(state := Done), Looking, Opening(0))
    ensures !AllSet(job.bits) && !AllObey(Lone(job, Looking, Looking), TooEarly())
  {
    hide Apply, Exec, AllObey, Obeys;
    var idle, running := job.(state := Idle), job.(state := Running);
    var r9: seq<Step> := [Finish(0)] + [];
    var r8 := [Claim(1)] + r9;
    var r7 := [AddAgain(0)] + r8;
    var r6 := [CheckBlock(0)] + r7;
    var r5 := [TryBlock(0, true)] + r6;
    var r4 := [Pause(0)] + r5;
    var r3 := [Open(0, true)] + r4;
    var r2 := [Claim(0)] + r3;
    FirstMoves(job);
    LastMoves(job);
    ExecStep(Lone(job, Looking, Looking), AddAgain(0), r2);
    ExecStep(Lone(idle, Looking, Looking), Claim(0), r3);
    ExecStep(Lone(running, Opening(0), Looking), Open(0, true), r4);
    ExecStep(Lone(running, Locking(0, 0, true), Looking), Pause(0), r5);
    ExecStep(Lone(job, Locking(0, 0, true), Looking), TryBlock(0, true), r6);
    ExecStep(Lone(job, Checking(0, 0, true, false), Looking), CheckBlock(0), r7);
    ExecStep(Lone(job, Finishing(0, true), Looking), AddAgain(0), r8);
    ExecStep(Lone(idle, Finishing(0, true), Looking), Claim(1), r9);
    ExecStep(Lone(running, Finishing(0, true), Opening(0)), Finish(0), []);
    ExecNone(Lone(job.(state := Done), Looking, Opening(0)));
    StillThere(Lone(job, Finishing(0, true), Looking), 0);
    assert !job.bits[1];
  }

  lemma ExecNone(sys: Sys)
    ensures Exec(sys, []) == sys && AllObey(sys, [])
  {
  }

  lemma StillThere(sys: Sys, j: nat)
    requires |sys.workers| > 0 && WorksOn(sys.workers[0], j)
    ensures !Obeys(sys, AddAgain(j))
  {
  }

  lemma FirstMoves(job: Job)
    requires job.state == Paused && job.bits == [true, false]
    ensures var idle, running := job.(state := Idle), job.(state := Running);
      && Apply(Lone(job, Looking, Looking), AddAgain(0)) == Lone(idle, Looking, Looking)
      && Apply(Lone(idle, Looking, Looking), Claim(0)) == Lone(running, Opening(0), Looking)
      && Apply(Lone(running, Opening(0), Looking), Open(0, true)) == Lone(running, Locking(0, 0, true), Looking)
      && Apply(Lone(running, Locking(0, 0, true), Looking), Pause(0)) == Lone(job, Locking(0, 0, true), Looking)
  {
  }

  lemma LastMoves(job: Job)
    requires job.state == Paused && job.bits == [true, false]
    ensures var idle, running := job.(state := Idle), job.(state := Running);
      && Apply(Lone(job, Locking(0, 0, true), Looking), TryBlock(0, true))
        == Lone(job, Checking(0, 0, true, false), Looking)
      && Apply(Lone(job, Checking(0, 0, true, false), Looking), CheckBlock(0)) == Lone(job, Finishing(0, true), Looking)
      && Apply(Lone(job, Finishing(0, true), Looking), AddAgain(0)) == Lone(idle, Finishing(0, true), Looking)
      && Apply(Lone(idle, Finishing(0, true), Looking), Claim(1)) == Lone(running, Finishing(0, true), Opening(0))
      && Apply(Lone(running, Finishing(0, true), Opening(0)), Finish(0))
        == Lone(job.(state := Done), Looking, Opening(0))
  {
  }

  /** How far the assumption is needed: whenever a download is added again with a worker still at
      it, the next claim can put a second one there. */
  lemma EarlyRequestDoubles(sys: Sys, j: nat, v: nat, w: nat)
    requires j < |sys.jobs| && sys.jobs[j].state == Paused
    requires forall k :: j < k < |sys.jobs| ==> sys.jobs[k].state != Idle
    requires v < |sys.workers| && WorksOn(sys.workers[v], j) && w < |sys.workers| && sys.workers[w].Looking?
    ensures var after := Apply(Apply(sys, AddAgain(j)), Claim(w));
      v != w && WorksOn(after.workers[v], j) && WorksOn(after.workers[w], j)
  {
    hide Claimed;
    var idle := Apply(sys, AddAgain(j));
    assert idle.jobs[j].state == Idle;
  }

  /** When that worker has only to finish, its flag decides: the download ends done exactly when
      the flag is set, and then incomplete exactly when a block is missing. */
  lemma EarlyRequestEnds(sys: Sys, j: nat, v: nat, w: nat, ok: bool)
    requires j < |sys.jobs| && sys.jobs[j].state == Paused
    requires v < |sys.workers| && sys.workers[v] == Finishing(j, ok) && w < |sys.workers| && sys.workers[w].Looking?
    ensures var job := Apply(Apply(Apply(sys, AddAgain(j)), Claim(w)), Finish(v)).jobs[j];
      job.bits == sys.jobs[j].bits && job.state == if ok then Done else Paused
  {
    var idle := Apply(sys, AddAgain(j));
    assert idle.jobs[j].state == Idle;
    var claimed := Apply(idle, Claim(w));
    assert claimed.jobs[j].state == Running && claimed.workers[v] == Finishing(j, ok);
  }

  /** A file whose size is a multiple of 2^32 has no blocks: it is done at once, and wrong unless
      it consists of zeros. */
  lemma DoneButWrong(id: Key, src: Bytes)
    requires |src| % TWO_TO_32 == 0
    ensures var steps := [AddNew(id, src)] + ([Claim(0)] + ([Open(0, true)] + ([Finish(0)] + [])));
      var sys := Exec(Initial(), steps);
      && AllObey(Initial(), steps) && |sys.jobs| == 1 && sys.jobs[0].state == Done && sys.jobs[0].src == src
      && (sys.jobs[0].data == src <==> forall i :: 0 <= i < |src| ==> src[i] == 0)
  {
    hide Apply, AllObey, Exec;
    var job := NewJob(id, src);
    var running := job.(state := Running);
    NoBlockMoves(id, src);
    var r4: seq<Step> := [Finish(0)] + [];
    var r3 := [Open(0, true)] + r4;
    var r2 := [Claim(0)] + r3;
    ExecStep(Initial(), AddNew(id, src), r2);
    ExecStep(Lone(job, Looking, Looking), Claim(0), r3);
    ExecStep(Lone(running, Opening(0), Looking), Open(0, true), r4);
    ExecStep(Lone(running, Finishing(0, true), Looking), Finish(0), []);
    ExecNone(Lone(job.(state := Done), Looking, Looking));
  }

  lemma NoBlockMoves(id: Key, src: Bytes)
    requires |src| % TWO_TO_32 == 0
    ensures var job := NewJob(id, src);
      var running := job.(state := Running);
      && Apply(Initial(), AddNew(id, src)) == Lone(job, Looking, Looking)
      && Apply(Lone(job, Looking, Looking), Claim(0)) == Lone(running, Opening(0), Looking)
      && Apply(Lone(running, Opening(0), Looking), Open(0, true)) == Lone(running, Finishing(0, true), Looking)
      && Apply(Lone(running, Finishing(0, true), Looking), Finish(0)) == Lone(job.(state := Done), Looking, Looking)
  {
  }
}

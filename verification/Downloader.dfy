/** The list of downloads that two workers and the user share. Each method is one section under
    the locks. */
module Downloader {
  import opened Circle
  import opened KeyBytes
  import opened Blocks
  import opened DownloadRuns
  import D = Download

  lemma NoneIdle(jobs: seq<Job>)
    ensures LastIdle(jobs[..0]) == None
  {
  }

  lemma OneMoreJob(jobs: seq<Job>, i: nat)
    requires i < |jobs|
    ensures LastIdle(jobs[..i + 1]) == if jobs[i].state == Idle then Some(i) else LastIdle(jobs[..i])
  {
    assert jobs[..i + 1][..i] == jobs[..i];
  }

  class Downloader {
    var downloads: seq<D.Download>

    ghost predicate Apart(i: nat, j: nat)
      requires i < |downloads| && j < |downloads|
      reads this
    {
      i != j ==>
        && downloads[i] != downloads[j]
        && downloads[i].blocks != downloads[j].blocks
        && downloads[i].data != downloads[j].data
    }

    /** No two entries share anything. */
    ghost predicate Valid()
      reads this
    {
      forall i, j {:trigger Apart(i, j)} :: 0 <= i < |downloads| && 0 <= j < |downloads| ==> Apart(i, j)
    }

    ghost function Jobs(): (jobs: seq<Job>)
      reads this, downloads, set d | d in downloads :: d.blocks, set d | d in downloads :: d.data
      ensures |jobs| == |downloads|
      ensures forall j :: 0 <= j < |jobs| ==> jobs[j] == downloads[j].View()
    {
      seq(|downloads|, j requires 0 <= j < |downloads|
                         reads this, downloads, set d | d in downloads :: d.blocks, set d | d in downloads :: d.data
                         => downloads[j].View())
    }

    constructor ()
      ensures Valid() && downloads == []
    {
      downloads := [];
    }

    lemma ApartDiffer(i: nat, j: nat)
      requires i < |downloads| && j < |downloads| && Apart(i, j) && i != j
      ensures downloads[i] != downloads[j]
    {
    }

    /** The scan of a worker. */
    method Claim() returns (index: Option<nat>)
      requires Valid()
      modifies downloads`state
      ensures Valid() && Jobs() == ClaimedAll(old(Jobs()))
      ensures index == LastIdle(old(Jobs()))
    {
      hide Apart, LastIdle;
      index := None;
      ghost var jobs: seq<Job> := Jobs();
      NoneIdle(jobs);
      var i := 0;
      while i < |downloads|
        invariant 0 <= i <= |downloads| && Valid()
        invariant forall j :: 0 <= j < i ==> downloads[j].View() == Claimed(jobs[j])
        invariant forall j :: i <= j < |downloads| ==> downloads[j].View() == jobs[j]
        invariant index == LastIdle(jobs[..i])
      {
        forall j | 0 <= j < |downloads| && j != i ensures downloads[j] != downloads[i] {
          assert Apart(i, j);
          ApartDiffer(i, j);
        }
        OneMoreJob(jobs, i);
        if downloads[i].state == Idle {
          index := Some(i);
          downloads[i].state := Running;
        }
        i := i + 1;
      }
      assert jobs[..i] == jobs;
    }

    /** The user pauses the download with this index; refused when there is none, or when it is
        not running. */
    method PauseAt(index: nat) returns (ok: bool)
      requires Valid()
      modifies downloads`state
      ensures Valid() && ok == (index < |downloads| && old(Jobs())[index].state == Running)
      ensures Jobs() == if ok then old(Jobs())[index := old(Jobs())[index].(state := Paused)] else old(Jobs())
    {
      ok := index < |downloads|;
      if ok {
        ghost var jobs: seq<Job> := Jobs();
        forall j | 0 <= j < |downloads| && j != index ensures downloads[j] != downloads[index] {
          assert Apart(index, j);
        }
        assert jobs[index].state == downloads[index].state;
        ok := downloads[index].PauseNow();
        assert forall j :: 0 <= j < |downloads| && j != index ==> downloads[j].View() == jobs[j];
      }
    }

    /** No table that arrives is shorter than the list of blocks. */
    ghost predicate Fits(answers: seq<D.Answer>, blocks: nat) {
      forall k: nat :: k < |answers| && answers[k].Has? ==> |answers[k].blocks| >= blocks
    }

    /** Whether the request asks the peers of the file at all. */
    ghost predicate Asks(jobs: seq<Job>, id: Key) {
      match Listed(jobs, id)
      case Some(j) => jobs[j].state == Paused
      case None => true
    }

    /** A file that is listed already is only made idle again, and only when it is paused;
        otherwise a new download is listed. Before either the peers are asked for their block
        tables, under the lock: with too few answers the request does not return and changes
        nothing in the list. */
    method Add(id: Key, size: nat, ghost src: Bytes, listed: seq<Key>, answers: seq<D.Answer>) returns (finished: bool)
      requires Valid() && |src| == size && Fits(answers, BlockCount(size))
      requires forall j :: 0 <= j < |downloads| ==>
        downloads[j].Valid() && (downloads[j].id == id ==> downloads[j].src == src)
      modifies this, downloads`state, downloads`peers
      ensures Valid() && Jobs() == if finished then Added(old(Jobs()), id, src) else old(Jobs())
      ensures finished <==> Asks(old(Jobs()), id) ==> |listed| <= |D.Useful(answers)|
      ensures finished && Asks(old(Jobs()), id) ==>
        exists j :: 0 <= j < |downloads| && downloads[j].id == id && downloads[j].peers == D.Gathered(listed, answers)
    {
      hide Apart, D.Gathered, D.Useful, NewJob;
      ghost var jobs: seq<Job> := Jobs();
      var i := 0;
      while i < |downloads| && downloads[i].id != id
        invariant 0 <= i <= |downloads|
        invariant forall j :: 0 <= j < i ==> jobs[j].id != id
      {
        i := i + 1;
      }
      if i < |downloads| {
        assert jobs[i].id == id;
        finished := Requeue(downloads[i], i, listed, answers);
      } else {
        finished := Append(id, size, src, listed, answers);
      }
    }

    /** The peers are asked again before a paused download is made idle. */
    method Requeue(d: D.Download, ghost i: nat, listed: seq<Key>, answers: seq<D.Answer>) returns (finished: bool)
      requires Valid() && i < |downloads| && d == downloads[i] && d.Valid() && Fits(answers, d.blocks.Length)
      modifies d`state, d`peers
      ensures Valid() && d.Valid()
      ensures finished <==> old(d.state) == Paused ==> |listed| <= |D.Useful(answers)|
      ensures Jobs() == if old(d.state) == Paused && finished then old(Jobs())[i := old(Jobs())[i].(state := Idle)]
                        else old(Jobs())
      ensures d.peers == if old(d.state) == Paused then D.Gathered(listed, answers) else old(d.peers)
    {
      ghost var jobs: seq<Job> := Jobs();
      forall j | 0 <= j < |downloads| && j != i ensures downloads[j] != d {
        assert Apart(i, j);
      }
      finished := true;
      if d.state == Paused {
        finished := d.InitPeers(listed, answers);
        if finished {
          d.state := Idle;
        }
      }
      assert forall j :: 0 <= j < |downloads| && j != i ==> downloads[j].View() == jobs[j];
      assert forall k, j {:trigger Apart(k, j)} :: 0 <= k < |downloads| && 0 <= j < |downloads| ==> old(Apart(k, j));
    }

    method Append(id: Key, size: nat, ghost src: Bytes, listed: seq<Key>, answers: seq<D.Answer>)
      returns (finished: bool)
      requires Valid() && |src| == size && Fits(answers, BlockCount(size))
      modifies this
      ensures Valid() && Jobs() == if finished then old(Jobs()) + [NewJob(id, src)] else old(Jobs())
      ensures finished <==> |listed| <= |D.Useful(answers)|
      ensures finished ==>
        && |downloads| > 0 && downloads[|downloads| - 1].id == id
        && downloads[|downloads| - 1].peers == D.Gathered(listed, answers)
    {
      ghost var jobs: seq<Job> := Jobs();
      var download := new D.Download(id, size, src);
      finished := download.InitPeers(listed, answers);
      forall i, j | 0 <= i < |downloads| && 0 <= j < |downloads| ensures Apart(i, j) {
      }
      if finished {
        downloads := downloads + [download];
      }
      forall i, j | 0 <= i < |downloads| && 0 <= j < |downloads| ensures Apart(i, j) {
        assert i < |jobs| && j < |jobs| ==> old(Apart(i, j));
      }
      assert forall j :: 0 <= j < |jobs| ==> downloads[j].View() == jobs[j];
    }
  }
}

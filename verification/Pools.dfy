/**
 The memory pool and the thread pools as the objects they are (include/thread_pool.hh,
 src/memory_pool.cc), and the loops of the two kinds of worker while other threads go on
 (src/compute_worker.cc, src/write_worker.cc).  A wait on a condition variable is a precondition: a method
 runs from the point where its lock is held and its condition true.  What the threads do together is the
 subject of `Pipeline`.
 */
module Pools {
  import opened Pipeline

  datatype Option<T> = None | Some(value: T)

  /** A memory block; a job refers to it by address. */
  class Buffer {
    var content: Content

    constructor (content: Content)
      ensures this.content == content
    {
      this.content := content;
    }
  }

  datatype Job = Job(header: Header, memPtr: Buffer)

  // -------------------------------------------------------------------------------------------
  // The memory pool
  // -------------------------------------------------------------------------------------------

  class MemoryPool {
    var pool: seq<Buffer>
    var freeQueue: seq<nat>
    var ptrMap: map<Buffer, nat>

    /** Addresses and block numbers correspond one to one. */
    ghost predicate Valid()
      reads this
    {
      && (forall i :: 0 <= i < |pool| ==> pool[i] in ptrMap && ptrMap[pool[i]] == i)
      && (forall b :: b in ptrMap ==> ptrMap[b] < |pool| && pool[ptrMap[b]] == b)
      && (forall k :: 0 <= k < |freeQueue| ==> freeQueue[k] < |pool|)
    }

    constructor (n: nat)
      ensures Valid() && |pool| == n && freeQueue == seq(n, i => i)
      ensures forall b :: b in ptrMap ==> fresh(b)
    {
      pool, freeQueue, ptrMap := [], [], map[];
      new;
      for i := 0 to n
        invariant Valid() && |pool| == i && freeQueue == seq(i, j => j)
        invariant forall b :: b in ptrMap ==> fresh(b)
      {
        var block := new Buffer(Content(Header(0, 0, 0, 0), 0));
        pool := pool + [block];
        freeQueue := freeQueue + [i];
        ptrMap := ptrMap[block := i];
      }
    }

    /** Waits for a free block, and takes the one that has been free longest. */
    method GetBlock() returns (b: Buffer)
      requires Valid() && freeQueue != []
      modifies this`freeQueue
      ensures Valid() && b in ptrMap && old(freeQueue) == [ptrMap[b]] + freeQueue
    {
      var i := freeQueue[0];
      freeQueue := freeQueue[1..];
      b := pool[i];
    }

    /** An address the pool does not know is reported and otherwise ignored. */
    method ReleaseBlock(ptr: Buffer) returns (known: bool)
      requires Valid()
      modifies this`freeQueue
      ensures Valid() && known == (ptr in ptrMap)
      ensures ptr in ptrMap ==> freeQueue == old(freeQueue) + [ptrMap[ptr]]
      ensures ptr !in ptrMap ==> freeQueue == old(freeQueue)
    {
      known := ptr in ptrMap;
      if !known {
        return;
      }
      freeQueue := freeQueue + [ptrMap[ptr]];
    }
  }

  /** The block numbers that come back when the jobs' blocks are released. */
  function Returned(ptrMap: map<Buffer, nat>, jobs: seq<Job>): seq<nat> {
    if jobs == [] then []
    else
      var ptr := jobs[|jobs| - 1].memPtr;
      Returned(ptrMap, jobs[..|jobs| - 1]) + if ptr in ptrMap then [ptrMap[ptr]] else []
  }

  ghost predicate AllKnown(ptrMap: map<Buffer, nat>, jobs: seq<Job>) {
    forall k :: 0 <= k < |jobs| ==> jobs[k].memPtr in ptrMap
  }

  lemma {:induction false} KnownReturned(ptrMap: map<Buffer, nat>, jobs: seq<Job>)
    requires AllKnown(ptrMap, jobs)
    ensures |Returned(ptrMap, jobs)| == |jobs|
    ensures forall k :: 0 <= k < |jobs| ==> Returned(ptrMap, jobs)[k] == ptrMap[jobs[k].memPtr]
  {
    if jobs != [] {
      KnownReturned(ptrMap, jobs[..|jobs| - 1]);
    }
  }

  /** The free queue `after` is `before` followed by the blocks of the jobs, in order. */
  ghost predicate GaveBack(ptrMap: map<Buffer, nat>, before: seq<nat>, after: seq<nat>, jobs: seq<Job>) {
    && |after| == |before| + |jobs| && after[..|before|] == before
    && forall k :: 0 <= k < |jobs| ==> jobs[k].memPtr in ptrMap && after[|before| + k] == ptrMap[jobs[k].memPtr]
  }

  lemma KnownGaveBack(ptrMap: map<Buffer, nat>, before: seq<nat>, jobs: seq<Job>)
    requires AllKnown(ptrMap, jobs)
    ensures GaveBack(ptrMap, before, before + Returned(ptrMap, jobs), jobs)
  {
    KnownReturned(ptrMap, jobs);
  }

  // -------------------------------------------------------------------------------------------
  // Thread pools
  // -------------------------------------------------------------------------------------------

  class ThreadPool {
    var taskQueue: seq<Job>
    var sealFlag: bool

    constructor ()
      ensures taskQueue == [] && !sealFlag
    {
      taskQueue, sealFlag := [], false;
    }

    method AddTask(job: Job)
      modifies this
      ensures taskQueue == old(taskQueue) + [job] && sealFlag == old(sealFlag)
    {
      taskQueue := taskQueue + [job];
    }

    /** Waits for a task or the seal.  Queued tasks are still handed out after the seal. */
    method GetTask() returns (r: Option<Job>)
      requires sealFlag || taskQueue != []
      modifies this
      ensures sealFlag == old(sealFlag)
      ensures r.Some? ==> old(taskQueue) == [r.value] + taskQueue
      ensures r.None? ==> old(taskQueue) == taskQueue == [] && sealFlag
    {
      if taskQueue != [] {
        r := Some(taskQueue[0]);
        taskQueue := taskQueue[1..];
      } else {
        r := None;
      }
    }

    method SetFinished()
      modifies this
      ensures sealFlag && taskQueue == old(taskQueue)
    {
      sealFlag := true;
    }
  }

  // -------------------------------------------------------------------------------------------
  // The workers' loops
  // -------------------------------------------------------------------------------------------

  predicate Apart(jobs: seq<Job>) {
    forall i, j :: 0 <= i < j < |jobs| ==> jobs[i].memPtr != jobs[j].memPtr
  }

  function Buffers(jobs: seq<Job>): (s: set<object>) {
    set i | 0 <= i < |jobs| :: jobs[i].memPtr
  }

  /** What other threads do while a worker is in `GetTask`: of the jobs that are still coming they add some,
      in order, at least until the wait is over; after the last one they may seal the queue. */
  method Others(own: ThreadPool, coming: seq<Job>) returns (rest: seq<Job>)
    requires own.sealFlag ==> coming == []
    modifies own
    ensures own.taskQueue + rest == old(own.taskQueue) + coming && old(own.taskQueue) <= own.taskQueue
    ensures own.sealFlag || own.taskQueue != []
    ensures own.sealFlag ==> rest == []
  {
    assert coming[..|coming|] == coming;
    var n: nat :| n <= |coming| && (n == |coming| || own.taskQueue + coming[..n] != []);
    own.taskQueue := own.taskQueue + coming[..n];
    rest := coming[n..];
    var seal: bool :| if own.taskQueue == [] then seal else seal ==> rest == [];
    own.sealFlag := own.sealFlag || seal;
  }

  /** Of all jobs, `done` have been taken, and the others are queued or coming. */
  ghost predicate Taken(jobs: seq<Job>, done: nat, queue: seq<Job>, coming: seq<Job>, sealed: bool) {
    done <= |jobs| && queue + coming == jobs[done..] && (sealed ==> coming == [])
  }

  /** `GetTask` while other threads go on: the next of all jobs, or nothing once all have been taken. */
  method NextTask(own: ThreadPool, coming: seq<Job>, ghost jobs: seq<Job>, ghost done: nat)
    returns (task: Option<Job>, rest: seq<Job>)
    requires Taken(jobs, done, own.taskQueue, coming, own.sealFlag)
    modifies own
    ensures match task
            case Some(job) => done < |jobs| && job == jobs[done]
                              && Taken(jobs, done + 1, own.taskQueue, rest, own.sealFlag)
            case None => done == |jobs| && own.taskQueue == rest == [] && own.sealFlag
  {
    rest := Others(own, coming);
    task := own.GetTask();
    if task.Some? {
      assert jobs[done..] == [task.value] + (own.taskQueue + rest);
      assert jobs[done..][0] == task.value && jobs[done..][1..] == own.taskQueue + rest;
    }
  }

  lemma NoneTaken(jobs: seq<Job>, queue: seq<Job>, coming: seq<Job>, sealed: bool)
    requires jobs == queue + coming && (sealed ==> coming == [])
    ensures Taken(jobs, 0, queue, coming, sealed)
  {
  }

  /** A queue that held `before` now holds the first `done` jobs as well. */
  ghost predicate PassedOn(before: seq<Job>, jobs: seq<Job>, done: nat, queue: seq<Job>) {
    done <= |jobs| && queue == before + jobs[..done]
  }

  lemma PassOne(before: seq<Job>, jobs: seq<Job>, done: nat, queue: seq<Job>)
    requires PassedOn(before, jobs, done, queue) && done < |jobs|
    ensures PassedOn(before, jobs, done + 1, queue + [jobs[done]])
  {
  }

  /** The jobs' blocks hold `was`. */
  ghost predicate Hold(jobs: seq<Job>, was: seq<Content>)
    reads Buffers(jobs)
  {
    |was| == |jobs| && forall k :: 0 <= k < |jobs| ==> jobs[k].memPtr.content == was[k]
  }

  /** Of the blocks that held `was`, those up to `done` have been encoded once more, the others not yet. */
  ghost predicate EncodedUpTo(jobs: seq<Job>, done: nat, was: seq<Content>)
    reads Buffers(jobs)
  {
    && |was| == |jobs|
    && (forall k :: 0 <= k < done && k < |jobs| ==>
          && jobs[k].memPtr.content.header == was[k].header
          && jobs[k].memPtr.content.encoded == was[k].encoded + 1)
    && (forall k :: done <= k < |jobs| ==> jobs[k].memPtr.content == was[k])
  }

  /** The body of the compute worker's loop. */
  method Encode(next: ThreadPool, ghost before: seq<Job>, ghost jobs: seq<Job>, ghost done: nat,
                ghost was: seq<Content>, job: Job)
    requires Apart(jobs) && EncodedUpTo(jobs, done, was) && done < |jobs| && job == jobs[done]
    requires PassedOn(before, jobs, done, next.taskQueue)
    modifies next, job.memPtr
    ensures EncodedUpTo(jobs, done + 1, was) && PassedOn(before, jobs, done + 1, next.taskQueue)
  {
    job.memPtr.content := job.memPtr.content.(encoded := job.memPtr.content.encoded + 1);
    PassOne(before, jobs, done, next.taskQueue);
    next.AddTask(job);
  }

  /** One compute worker, from whatever is queued and still coming: every job's block is encoded once and
      passed on, in order, and then the write queue is sealed. */
  method RunCompute(own: ThreadPool, next: ThreadPool, coming: seq<Job>, ghost jobs: seq<Job>, ghost was: seq<Content>)
    requires own != next && (own.sealFlag ==> coming == []) && jobs == own.taskQueue + coming
    requires Apart(jobs) && Hold(jobs, was)
    modifies own, next, Buffers(jobs)
    ensures own.taskQueue == [] && own.sealFlag && next.sealFlag
    ensures PassedOn(old(next.taskQueue), jobs, |jobs|, next.taskQueue)
    ensures EncodedUpTo(jobs, |jobs|, was)
    ensures forall k :: 0 <= k < |jobs| ==>
              jobs[k].memPtr.content.header == was[k].header && jobs[k].memPtr.content.encoded == was[k].encoded + 1
  {
    ghost var done := 0;
    var rest := coming;
    NoneTaken(jobs, own.taskQueue, coming, own.sealFlag);
    while true
      invariant 0 <= done && Taken(jobs, done, own.taskQueue, rest, own.sealFlag)
      invariant PassedOn(old(next.taskQueue), jobs, done, next.taskQueue)
      invariant EncodedUpTo(jobs, done, was)
      decreases |jobs| - done
    {
      var task;
      task, rest := NextTask(own, rest, jobs, done);
      if task.None? {
        next.SetFinished();
        break;
      }
      Encode(next, old(next.taskQueue), jobs, done, was, task.value);
      done := done + 1;
    }
  }

  /** What a write worker has done with the jobs so far. */
  ghost predicate WroteUpTo(memPool: MemoryPool, before: seq<nat>, jobs: seq<Job>, files: seq<Content>)
    reads memPool, Buffers(jobs)
  {
    && |files| <= |jobs| && memPool.Valid() && WrittenFrom(files, jobs[..|files|])
    && memPool.freeQueue == before + Returned(memPool.ptrMap, jobs[..|files|])
  }

  /** The body of the write worker's loop. */
  method WriteOne(memPool: MemoryPool, ghost before: seq<nat>, ghost jobs: seq<Job>, files: seq<Content>, job: Job)
    returns (files': seq<Content>)
    requires WroteUpTo(memPool, before, jobs, files) && |files| < |jobs| && job == jobs[|files|]
    modifies memPool`freeQueue
    ensures WroteUpTo(memPool, before, jobs, files') && |files'| == |files| + 1
  {
    assert jobs[..|files| + 1][..|files|] == jobs[..|files|];
    files' := files + [job.memPtr.content];
    var known := memPool.ReleaseBlock(job.memPtr);
  }

  lemma WroteAll(memPool: MemoryPool, before: seq<nat>, jobs: seq<Job>, files: seq<Content>)
    requires WroteUpTo(memPool, before, jobs, files) && |files| == |jobs|
    ensures memPool.Valid() && WrittenFrom(files, jobs)
    ensures memPool.freeQueue == before + Returned(memPool.ptrMap, jobs)
    ensures AllKnown(memPool.ptrMap, jobs) ==> GaveBack(memPool.ptrMap, before, memPool.freeQueue, jobs)
  {
    assert jobs[..|files|] == jobs;
    if AllKnown(memPool.ptrMap, jobs) {
      KnownGaveBack(memPool.ptrMap, before, jobs);
    }
  }

  /** One write worker, from whatever is queued and still coming: every job's block is written as it is, in
      order, and given back. */
  method RunWrite(own: ThreadPool, memPool: MemoryPool, coming: seq<Job>, ghost jobs: seq<Job>)
    returns (files: seq<Content>)
    requires (own.sealFlag ==> coming == []) && jobs == own.taskQueue + coming && memPool.Valid()
    modifies own, memPool`freeQueue
    ensures own.taskQueue == [] && own.sealFlag && memPool.Valid()
    ensures WrittenFrom(files, jobs)
    ensures memPool.freeQueue == old(memPool.freeQueue) + Returned(memPool.ptrMap, jobs)
    ensures AllKnown(memPool.ptrMap, jobs) ==>
              && |memPool.freeQueue| == |old(memPool.freeQueue)| + |jobs|
              && forall k :: 0 <= k < |jobs| ==>
                   memPool.freeQueue[|old(memPool.freeQueue)| + k] == memPool.ptrMap[jobs[k].memPtr]
  {
    ghost var before := memPool.freeQueue;
    files := [];
    var rest := coming;
    NoneTaken(jobs, own.taskQueue, coming, own.sealFlag);
    while true
      invariant WroteUpTo(memPool, before, jobs, files)
      invariant Taken(jobs, |files|, own.taskQueue, rest, own.sealFlag)
      decreases |jobs| - |files|
    {
      var task;
      task, rest := NextTask(own, rest, jobs, |files|);
      if task.None? {
        break;
      }
      files := WriteOne(memPool, before, jobs, files, task.value);
    }
    WroteAll(memPool, before, jobs, files);
  }

  /** The files hold what the jobs' blocks hold. */
  predicate WrittenFrom(files: seq<Content>, jobs: seq<Job>)
    reads Buffers(jobs)
  {
    |files| == |jobs| && forall k :: 0 <= k < |files| ==> files[k] == jobs[k].memPtr.content
  }

  lemma ApartParts(plain: seq<Job>, coded: seq<Job>)
    requires Apart(plain + coded)
    ensures Apart(coded)
    ensures forall k :: 0 <= k < |plain| ==> plain[k].memPtr !in Buffers(coded)
  {
    var all := plain + coded;
    forall i, j | 0 <= i < j < |coded| ensures coded[i].memPtr != coded[j].memPtr {
      assert all[|plain| + i] == coded[i] && all[|plain| + j] == coded[j];
    }
    forall i, j | 0 <= i < |plain| && 0 <= j < |coded| ensures plain[i].memPtr != coded[j].memPtr {
      assert all[i] == plain[i] && all[|plain| + j] == coded[j];
    }
  }

  /** With one thread of each kind, the shutdown of a node writes everything that was queued, what was to
      be encoded encoded once, and gives every block back. */
  method Drain(compute: ThreadPool, write: ThreadPool, memPool: MemoryPool, ghost plain: seq<Job>, ghost coded: seq<Job>,
               ghost all: seq<Job>, ghost plainWas: seq<Content>, ghost codedWas: seq<Content>)
    returns (files: seq<Content>)
    requires compute != write && memPool.Valid()
    requires write.taskQueue == plain && compute.taskQueue == coded && all == plain + coded && Apart(all)
    requires Hold(plain, plainWas) && Hold(coded, codedWas)
    modifies compute, write, memPool`freeQueue, Buffers(coded)
    ensures compute.taskQueue == [] && write.taskQueue == [] && memPool.Valid()
    ensures Files(files, plainWas, codedWas)
    ensures forall k :: 0 <= k < |codedWas| && codedWas[k].encoded == 0 ==>
              files[|plainWas| + k] == Content(codedWas[k].header, 1)
    ensures memPool.freeQueue == old(memPool.freeQueue) + Returned(memPool.ptrMap, all)
    ensures AllKnown(memPool.ptrMap, all) ==>
              && |memPool.freeQueue| == |old(memPool.freeQueue)| + |all|
              && forall k :: 0 <= k < |all| ==>
                   memPool.freeQueue[|old(memPool.freeQueue)| + k] == memPool.ptrMap[all[k].memPtr]
  {
    ApartParts(plain, coded);
    compute.SetFinished();
    NothingMore(coded);
    RunCompute(compute, write, [], coded, codedWas);
    AllPassedOn(plain, coded, write.taskQueue);
    NothingMore(all);
    files := RunWrite(write, memPool, [], all);
    FilesOf(files, plain, coded, plainWas, codedWas);
  }

  lemma NothingMore(jobs: seq<Job>)
    ensures jobs + [] == jobs
  {
  }

  lemma AllPassedOn(plain: seq<Job>, coded: seq<Job>, queue: seq<Job>)
    requires PassedOn(plain, coded, |coded|, queue)
    ensures queue == plain + coded
  {
  }

  /** The files of the plain jobs hold what their blocks held, those of the others the same chunks encoded
      once more. */
  ghost predicate Files(files: seq<Content>, plain: seq<Content>, coded: seq<Content>) {
    && |files| == |plain| + |coded|
    && (forall k :: 0 <= k < |plain| ==> files[k] == plain[k])
    && (forall k :: 0 <= k < |coded| ==>
          files[|plain| + k].header == coded[k].header && files[|plain| + k].encoded == coded[k].encoded + 1)
  }

  lemma FilesOf(files: seq<Content>, plain: seq<Job>, coded: seq<Job>, plainWas: seq<Content>, codedWas: seq<Content>)
    requires WrittenFrom(files, plain + coded) && EncodedUpTo(coded, |coded|, codedWas)
    requires |plainWas| == |plain| && forall k :: 0 <= k < |plain| ==> plain[k].memPtr.content == plainWas[k]
    ensures Files(files, plainWas, codedWas)
  {
    var all := plain + coded;
    forall k | 0 <= k < |coded| ensures all[|plain| + k] == coded[k] {
    }
  }
}

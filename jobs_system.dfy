/**
 * The job system (heart/heart-core/include/heart/jobs/system.h and
 * heart/heart-core/src/jobs/system.cpp): reference-counted jobs wait in
 * one queue per priority; a thread takes the first job whose mask matches,
 * from the most urgent queue down to its own lowest priority, runs it, and
 * re-queues it when it asks to be retried. Threads, the mutex and the
 * condition variable are left out: each method is one critical section,
 * and what a job's function returns is a parameter.
 */
module Jobs {
  import opened Wrappers

  /** `HeartJobStatus`. */
  datatype JobStatus = Pending | Failure | Success

  /** `HeartJobResult`, what a job's function returns. */
  datatype JobResult = Failure | Success | Retry

  /** `HeartJobPriority`, in increasing order of urgency. */
  datatype Priority = Normal | High | Urgent

  /** `HeartJobPriority::Count`, the number of queues. */
  const Count: nat := 3

  /** `HeartJobPriority::Maximum`. */
  const Maximum: Priority := Urgent

  /** The underlying value of a priority: its queue. */
  function Level(p: Priority): (r: nat)
    ensures r < Count
    ensures p == Maximum <==> r == Count - 1
  {
    match p
    case Normal => 0
    case High => 1
    case Urgent => 2
  }

  /** `HeartJobPriority(i)`. */
  function PriorityAt(i: nat): (p: Priority)
    requires i < Count
    ensures Level(p) == i
  {
    if i == 0 then Priority.Normal else if i == 1 then Priority.High else Urgent
  }

  /** `HeartJobMask`: users may make their own, so it is a plain 32-bit value. */
  const MaskNone: bv32 := 0
  const MaskDefault: bv32 := 1
  const MaskAll: bv32 := !MaskNone

  /** `HeartThread::Priority`. */
  datatype ThreadPriority = Lowest | Low | Normal | High | Highest | Critical

  /** `HeartJobSystem::Settings`; `threadCount` is a `uint8_t`. */
  datatype Settings = Settings(threadCount: nat, threadPriority: ThreadPriority)

  /** `std::clamp(v, lo, hi)`. */
  function Clamp(v: int, lo: int, hi: int): int
  {
    if v < lo then lo else if hi < v then hi else v
  }

  const ReservedCount: nat := 4
  const MinimumCount: nat := 1
  const MaximumCount: nat := 16

  /**
   * `GetDefaultSettings`, given `std::thread::hardware_concurrency()`. The
   * subtraction is on `uint32_t`, so fewer than four cores wrap around to
   * a huge count and clamp to the maximum.
   */
  function GetDefaultSettings(coreCount: nat): (s: Settings)
    requires coreCount < 0x1_0000_0000
    ensures MinimumCount <= s.threadCount <= MaximumCount && s.threadPriority == ThreadPriority.High
    ensures coreCount < ReservedCount ==> s.threadCount == MaximumCount
    ensures ReservedCount <= coreCount ==> s.threadCount == Clamp(coreCount - ReservedCount, MinimumCount, MaximumCount)
  {
    var count := Clamp((coreCount - ReservedCount) % 0x1_0000_0000, MinimumCount, MaximumCount);
    Settings(count % 0x100, ThreadPriority.High)
  }

  /**
   * The default settings as the comments beside them mean: the cores left
   * after the reserved ones, but never fewer than one thread nor more than
   * sixteen.
   */
  function IntendedDefaultSettings(coreCount: nat): (s: Settings)
    ensures MinimumCount <= s.threadCount <= MaximumCount && s.threadPriority == ThreadPriority.High
    ensures s.threadCount <= if coreCount > ReservedCount then coreCount - ReservedCount else MinimumCount
    ensures ReservedCount + MinimumCount <= coreCount <= ReservedCount + MaximumCount ==> s.threadCount == coreCount - ReservedCount
  {
    Settings(Clamp(coreCount as int - ReservedCount, MinimumCount, MaximumCount), ThreadPriority.High)
  }

  /** A machine with two cores gets sixteen job threads by default. */
  lemma TwoCoresGetSixteenThreads()
    ensures GetDefaultSettings(2).threadCount == 16 && IntendedDefaultSettings(2).threadCount == 1
  {
  }

  /** A worker thread: the lowest priority it takes and its thread priority. */
  datatype WorkerThread = WorkerThread(lowestPriority: Priority, priority: ThreadPriority)

  /**
   * The threads `Initialize` starts: at least one; the first takes only
   * urgent jobs exactly when there is more than one.
   */
  function Roles(s: Settings): (r: seq<WorkerThread>)
    ensures |r| == if s.threadCount < 1 then 1 else s.threadCount
    ensures forall i :: 0 <= i < |r| ==> r[i].priority == s.threadPriority
    ensures forall i :: 0 <= i < |r| ==> (r[i].lowestPriority == Urgent <==> i == 0 && |r| > 1)
    ensures forall i :: 0 <= i < |r| ==> r[i].lowestPriority != Priority.High
  {
    var threadCount := if s.threadCount < 1 then 1 else s.threadCount;
    var urgentThreadCount := if threadCount > 1 then 1 else 0;
    seq(threadCount, i => WorkerThread(if i < urgentThreadCount then Urgent else Priority.Normal, s.threadPriority))
  }

  /** `HeartJob`. */
  class Job {
    /** `useCount`, the number of references. */
    var useCount: nat
    /** The mask `TryAcquireOneJob` matches. */
    const mask: bv32
    /** Whether `worker` still holds the job's function. */
    var hasWorker: bool
    var status: JobStatus
    /** Whether `DecrementRef` has handed the job back to its allocator. */
    var destroyed: bool

    /** A new job holds its function, has no reference yet and is pending. */
    constructor (m: bv32)
      ensures useCount == 0 && mask == m && hasWorker && status == JobStatus.Pending && !destroyed
    {
      useCount := 0;
      mask := m;
      hasWorker := true;
      status := JobStatus.Pending;
      destroyed := false;
    }

    method IncrementRef()
      modifies this`useCount
      ensures useCount == old(useCount) + 1
    {
      useCount := useCount + 1;
    }

    /** Drops a reference; the job is destroyed exactly when the last one goes. */
    method DecrementRef()
      requires useCount > 0
      modifies this`useCount, this`destroyed
      ensures useCount == old(useCount) - 1
      ensures destroyed <==> old(destroyed) || useCount == 0
    {
      useCount := useCount - 1;
      if useCount == 0 {
        destroyed := true;
      }
    }
  }

  /** Whether a job may be taken under a mask: they share a bit. */
  predicate Matches(job: Job, mask: bv32)
  {
    job.mask & mask != 0
  }

  /** Every job waiting in the queues, as often as it waits. */
  ghost function Queued(qs: seq<seq<Job>>): multiset<Job>
  {
    if qs == [] then multiset{} else Queued(qs[..|qs| - 1]) + multiset(qs[|qs| - 1])
  }

  /** Replacing one queue swaps its jobs for the new ones, job by job. */
  lemma {:induction false} QueuedUpdate(qs: seq<seq<Job>>, l: nat, s: seq<Job>, j: Job)
    requires l < |qs|
    ensures Queued(qs[l := s])[j] + multiset(qs[l])[j] == Queued(qs)[j] + multiset(s)[j]
  {
    var n := |qs| - 1;
    var updated := qs[l := s];
    assert Queued(updated) == Queued(updated[..n]) + multiset(updated[n]);
    assert Queued(qs) == Queued(qs[..n]) + multiset(qs[n]);
    if l == n {
      assert updated[..n] == qs[..n];
    } else {
      assert updated[..n] == qs[..n][l := s];
      assert updated[n] == qs[n] && qs[..n][l] == qs[l];
      QueuedUpdate(qs[..n], l, s, j);
    }
  }

  /** A job added at the back of a queue waits once more; no other job changes. */
  lemma QueuedAppend(qs: seq<seq<Job>>, l: nat, job: Job, j: Job)
    requires l < |qs|
    ensures Queued(qs[l := qs[l] + [job]])[j] == Queued(qs)[j] + if j == job then 1 else 0
  {
    QueuedUpdate(qs, l, qs[l] + [job], j);
    assert multiset(qs[l] + [job]) == multiset(qs[l]) + multiset{job};
  }

  /** Every waiting job is an allocated object. */
  lemma QueuedAllocated(qs: seq<seq<Job>>)
    ensures forall j :: j in Queued(qs) ==> allocated(j)
  {
    if qs != [] {
      QueuedAllocated(qs[..|qs| - 1]);
    }
  }

  /** No job waits in empty queues. */
  lemma QueuedEmpty(qs: seq<seq<Job>>)
    requires forall l :: 0 <= l < |qs| ==> qs[l] == []
    ensures Queued(qs) == multiset{}
  {
    if qs != [] {
      QueuedEmpty(qs[..|qs| - 1]);
    }
  }

  /** Where a job sits in the queues: the queue (a priority's level) and the index in it. */
  datatype Slot = Slot(level: nat, index: nat)

  /** The index of the first job of a queue that matches the mask. */
  function FirstMatch(q: seq<Job>, mask: bv32): (r: Option<nat>)
    ensures r.Some? ==> r.value < |q| && Matches(q[r.value], mask)
    ensures r.Some? ==> forall k :: 0 <= k < r.value ==> !Matches(q[k], mask)
    ensures r.None? ==> forall k :: 0 <= k < |q| ==> !Matches(q[k], mask)
  {
    if q == [] then None
    else if Matches(q[0], mask) then Some(0)
    else match FirstMatch(q[1..], mask)
      case Some(k) => Some(k + 1)
      case None => None
  }

  /**
   * The job `TryAcquireOneJob` takes, scanning the queues from `level`
   * down to `lowest`, each from front to back: the first that matches.
   */
  function Select(qs: seq<seq<Job>>, level: int, lowest: nat, mask: bv32): (r: Option<Slot>)
    requires level < |qs|
    decreases level + 1
    ensures r.Some? ==> lowest <= r.value.level <= level && r.value.index < |qs[r.value.level]|
    ensures r.Some? ==> Matches(qs[r.value.level][r.value.index], mask)
    ensures r.Some? ==> forall k :: 0 <= k < r.value.index ==> !Matches(qs[r.value.level][k], mask)
    ensures r.Some? ==> forall l, k :: r.value.level < l <= level && 0 <= k < |qs[l]| ==> !Matches(qs[l][k], mask)
    ensures r.None? ==> forall l, k :: lowest <= l <= level && 0 <= k < |qs[l]| ==> !Matches(qs[l][k], mask)
  {
    if level < lowest then None
    else match FirstMatch(qs[level], mask)
      case Some(k) => Some(Slot(level, k))
      case None => Select(qs, level - 1, lowest, mask)
  }

  /** The queues after the job at a slot leaves. */
  function Without(qs: seq<seq<Job>>, at: Slot): (r: seq<seq<Job>>)
    requires at.level < |qs| && at.index < |qs[at.level]|
    ensures |r| == |qs| && |r[at.level]| == |qs[at.level]| - 1
    ensures forall l :: 0 <= l < |qs| && l != at.level ==> r[l] == qs[l]
    ensures qs[at.level] == r[at.level][..at.index] + [qs[at.level][at.index]] + r[at.level][at.index..]
  {
    var q := qs[at.level];
    qs[at.level := q[..at.index] + q[at.index + 1..]]
  }

  /** The job at a slot, once it leaves, waits once less; no other job changes. */
  lemma QueuedRemove(qs: seq<seq<Job>>, at: Slot, j: Job)
    requires at.level < |qs| && at.index < |qs[at.level]|
    ensures Queued(Without(qs, at))[j] + (if j == qs[at.level][at.index] then 1 else 0) == Queued(qs)[j]
  {
    var rest := Without(qs, at);
    var l, k := at.level, at.index;
    assert qs[l := rest[l]] == rest;
    assert rest[l] == rest[l][..k] + rest[l][k..];
    QueuedUpdate(qs, l, rest[l], j);
  }

  /** The queues after a run: a job asking to be retried goes back to the end of its queue. */
  function Requeued(qs: seq<seq<Job>>, l: nat, job: Job, result: JobResult): seq<seq<Job>>
    requires l < |qs|
  {
    if result == JobResult.Retry then qs[l := qs[l] + [job]] else qs
  }

  /** `HeartJobSystem`. */
  class JobSystem {
    /** `m_queues`, one per priority. */
    var queues: seq<seq<Job>>
    /** `m_workerThreads`. */
    var workerThreads: seq<WorkerThread>

    /**
     * There is a queue per priority; a waiting job is linked into one queue
     * once, through its single intrusive link, and the queue holds a
     * reference to it.
     */
    ghost predicate Valid()
      reads this, Queued(queues)
    {
      |queues| == Count &&
      forall j :: j in Queued(queues) ==> Queued(queues)[j] == 1 && j.useCount >= 1 && !j.destroyed
    }

    /** The constructor: empty queues, no threads. */
    constructor ()
      ensures Valid() && queues == [[], [], []] && workerThreads == []
    {
      queues := [[], [], []];
      workerThreads := [];
      new;
      QueuedEmpty(queues);
    }

    /** `Initialize`: the worker threads are started in order, each with its role. */
    method Initialize(s: Settings)
      modifies this`workerThreads
      ensures workerThreads == old(workerThreads) + Roles(s)
    {
      var threadCount := if s.threadCount < 1 then 1 else s.threadCount;
      var urgentThreadCount := if threadCount > 1 then 1 else 0;
      for i := 0 to threadCount
        invariant workerThreads == old(workerThreads) + Roles(s)[..i]
      {
        var lowestPriority := if i < urgentThreadCount then Urgent else Priority.Normal;
        workerThreads := workerThreads + [WorkerThread(lowestPriority, s.threadPriority)];
      }
    }

    /** `InsertJobIntoQueue`: the job goes to the back of its priority's queue, which takes a reference. */
    method InsertJobIntoQueue(job: Job, pri: Priority)
      requires Valid() && job !in Queued(queues) && !job.destroyed
      modifies this`queues, job`useCount
      ensures Valid()
      ensures queues == old(queues)[Level(pri) := old(queues[Level(pri)]) + [job]]
      ensures job.useCount == old(job.useCount) + 1
    {
      ghost var before := queues;
      QueuedAllocated(before);
      queues := queues[Level(pri) := queues[Level(pri)] + [job]];
      job.IncrementRef();
      forall j | j in Queued(queues)
        ensures Queued(queues)[j] == 1 && j.useCount >= 1 && !j.destroyed
      {
        QueuedAppend(before, Level(pri), job, j);
        if j != job {
          assert j in Queued(before);
        }
      }
    }

    /**
     * `RemoveJobFromQueue`: the job leaves its queue. The reference handed
     * back is taken before the queue's own is dropped, so the job survives
     * with the count it had.
     */
    method RemoveJobFromQueue(at: Slot) returns (job: Job)
      requires Valid() && at.level < Count && at.index < |queues[at.level]|
      modifies this`queues, Queued(queues)`useCount, Queued(queues)`destroyed
      ensures Valid() && job == old(queues[at.level][at.index]) && queues == Without(old(queues), at)
      ensures job in Queued(old(queues)) && job.useCount == old(job.useCount) && !job.destroyed && job !in Queued(queues)
    {
      job := queues[at.level][at.index];
      ghost var before := queues;
      QueuedAllocated(before);
      var rest := Without(queues, at);
      QueuedRemove(before, at, job);
      job.IncrementRef();
      job.DecrementRef();
      queues := rest;
      forall j | j in Queued(queues)
        ensures Queued(queues)[j] == 1 && j.useCount >= 1 && !j.destroyed
      {
        QueuedRemove(before, at, j);
      }
    }

    /**
     * `TryAcquireOneJob`: takes the job `Select` picks from the most urgent
     * queue down to `lowest`, and reports its priority; with none, nothing
     * changes and `outPri` is left as it was.
     */
    method TryAcquireOneJob(outPri: Priority, lowest: Priority, mask: bv32 := MaskAll) returns (found: bool, job: Job?, pri: Priority)
      requires Valid()
      modifies this`queues, Queued(queues)`useCount, Queued(queues)`destroyed
      ensures Valid()
      ensures var r := Select(old(queues), Count - 1, Level(lowest), mask);
        found == r.Some? &&
        (r.None? ==> job == null && pri == outPri && queues == old(queues)) &&
        (r.Some? ==> (job == old(queues[r.value.level][r.value.index]) && pri == PriorityAt(r.value.level) &&
          queues == Without(old(queues), r.value)))
      ensures job != null ==> job in Queued(old(queues)) && job.useCount == old(job.useCount) && !job.destroyed && job !in Queued(queues)
    {
      found, job, pri := false, null, outPri;
      var i := Count - 1;
      while i >= Level(lowest)
        invariant Level(lowest) - 1 <= i < Count
        invariant queues == old(queues)
        invariant Select(queues, Count - 1, Level(lowest), mask) == Select(queues, i, Level(lowest), mask)
        decreases i
      {
        var k := 0;
        while k < |queues[i]|
          invariant 0 <= k <= |queues[i]|
          invariant forall k' :: 0 <= k' < k ==> !Matches(queues[i][k'], mask)
        {
          if queues[i][k].mask & mask != 0 {
            assert FirstMatch(queues[i], mask) == Some(k);
            pri := PriorityAt(i);
            job := RemoveJobFromQueue(Slot(i, k));
            found := true;
            return;
          }
          k := k + 1;
        }
        i := i - 1;
      }
    }

    /**
     * `ProcessOneJob`, given what the job's function returned: success and
     * failure set the status and drop the function; a retry re-queues the
     * job at its priority and leaves its status alone.
     */
    method ProcessOneJob(job: Job, priority: Priority, result: JobResult)
      requires Valid() && job !in Queued(queues) && !job.destroyed
      modifies this`queues, job`useCount, job`hasWorker, job`status
      ensures Valid()
      ensures result != JobResult.Retry ==> queues == old(queues) && job.useCount == old(job.useCount) && !job.hasWorker
      ensures result == JobResult.Success ==> job.status == JobStatus.Success
      ensures result == JobResult.Failure ==> job.status == JobStatus.Failure
      ensures result == JobResult.Retry ==> queues == old(queues)[Level(priority) := old(queues[Level(priority)]) + [job]]
      ensures result == JobResult.Retry ==> job.useCount == old(job.useCount) + 1
      ensures result == JobResult.Retry ==> job.status == old(job.status) && job.hasWorker == old(job.hasWorker)
    {
      if result == JobResult.Success {
        job.hasWorker := false;
        job.status := JobStatus.Success;
      } else if result == JobResult.Failure {
        job.hasWorker := false;
        job.status := JobStatus.Failure;
      } else {
        InsertJobIntoQueue(job, priority);
      }
    }

    /**
     * `TryStealJobWork`, given first what the taken job's function returns
     * (the source's two parameters keep their defaults after it): with
     * no matching job it reports false and changes nothing; otherwise the
     * job is taken and processed, and the caller's reference dropped.
     */
    method TryStealJobWork(result: JobResult, lowest: Priority := Priority.Normal, mask: bv32 := MaskAll) returns (stolen: bool, ghost job: Job?)
      requires Valid()
      modifies this`queues, Queued(queues)`useCount, Queued(queues)`destroyed, Queued(queues)`hasWorker, Queued(queues)`status
      ensures Valid()
      ensures stolen == Select(old(queues), Count - 1, Level(lowest), mask).Some?
      ensures !stolen ==> job == null && queues == old(queues)
      ensures stolen ==> var at := Select(old(queues), Count - 1, Level(lowest), mask).value;
        job == old(queues[at.level][at.index]) && queues == Requeued(Without(old(queues), at), at.level, job, result)
      ensures job != null && result != JobResult.Retry ==> job.useCount == old(job.useCount) - 1 && !job.hasWorker
      ensures job != null && result == JobResult.Success ==> job.status == JobStatus.Success
      ensures job != null && result == JobResult.Failure ==> job.status == JobStatus.Failure
      ensures job != null && result == JobResult.Retry ==> job.useCount == old(job.useCount) && job.status == old(job.status)
      ensures job != null ==> (job.destroyed <==> job.useCount == 0)
    {
      var found, taken, pri := TryAcquireOneJob(Priority.Normal, lowest, mask);
      job := taken;
      if !found {
        return false, job;
      }
      ProcessAndRelease(taken, pri, result);
      stolen := true;
    }

    /** The end of `TryStealJobWork`: the taken job is processed and the reference to it dropped. */
    method ProcessAndRelease(job: Job, pri: Priority, result: JobResult)
      requires Valid() && job !in Queued(queues) && !job.destroyed && job.useCount >= 1
      modifies this`queues, job`useCount, job`destroyed, job`hasWorker, job`status
      ensures Valid() && queues == Requeued(old(queues), Level(pri), job, result)
      ensures result != JobResult.Retry ==> job.useCount == old(job.useCount) - 1 && !job.hasWorker
      ensures result == JobResult.Success ==> job.status == JobStatus.Success
      ensures result == JobResult.Failure ==> job.status == JobStatus.Failure
      ensures result == JobResult.Retry ==> job.useCount == old(job.useCount) && job.status == old(job.status)
      ensures job.destroyed <==> job.useCount == 0
    {
      ProcessOneJob(job, pri, result);
      assert !job.destroyed && job.useCount >= 1;
      QueuedAllocated(queues);
      job.DecrementRef();
      if result == JobResult.Retry {
        assert Valid() by {
          forall j | j in Queued(queues)
            ensures Queued(queues)[j] == 1 && j.useCount >= 1 && !j.destroyed
          {
          }
        }
      } else {
        assert Valid() by {
          forall j | j in Queued(queues)
            ensures j != job
          {
          }
        }
      }
    }

    /**
     * `EnqueueJob`, by default at priority Normal with the default mask: a
     * new pending job goes to the back of its queue, and the caller and the
     * queue each hold a reference.
     */
    method EnqueueJob(pri: Priority := Priority.Normal, mask: bv32 := MaskDefault) returns (job: Job)
      requires Valid()
      modifies this`queues
      ensures Valid() && fresh(job)
      ensures job.mask == mask && job.status == JobStatus.Pending && job.hasWorker && job.useCount == 2
      ensures queues == old(queues)[Level(pri) := old(queues[Level(pri)]) + [job]]
    {
      QueuedAllocated(queues);
      job := new Job(mask);
      job.IncrementRef();
      InsertJobIntoQueue(job, pri);
    }
  }
}

/** The thread pool's bounded queue (server/threadpool.c): a linked list with head, tail and size. */
module JobQueue {

  class Job<T> {
    const work: T
    var next: Job?<T>

    constructor (work: T)
      ensures this.work == work && next == null
    {
      this.work := work;
      next := null;
    }
  }

  /** What a worker does next after looking at the queue under the lock. */
  datatype Turn<T> = Wait | Leave | Run(work: T)

  class Queue<T> {
    var head: Job?<T>
    var tail: Job?<T>
    var size: nat
    const cap: nat
    var shuttingDown: bool
    ghost var spine: seq<Job<T>>   // the nodes from head to tail

    ghost predicate Valid()
      reads this, spine
    {
      && size == |spine| <= cap
      && (if spine == [] then head == null && tail == null
          else head == spine[0] && tail == spine[|spine| - 1] && spine[|spine| - 1].next == null)
      && (forall i :: 0 <= i < |spine| - 1 ==> spine[i].next == spine[i + 1])
      && (forall i, j :: 0 <= i < j < |spine| ==> spine[i] != spine[j])
    }

    /** The queued work, oldest first. */
    ghost function Contents(): seq<T>
      reads this
    {
      seq(|spine|, i requires 0 <= i < |spine| reads this => spine[i].work)
    }

    /** The queue part of threadpool_create; a non-positive capacity means 1024. */
    constructor (queueCap: int)
      ensures Valid() && Contents() == [] && cap == (if queueCap > 0 then queueCap else 1024) && spine == []
      ensures !shuttingDown
    {
      cap := if queueCap > 0 then queueCap else 1024;
      head, tail, size, spine := null, null, 0, [];
      shuttingDown := false;
    }

    /** The locked part of threadpool_submit: refuse when full, else link the job behind the tail. */
    method Submit(work: T) returns (rc: int)
      requires Valid()
      modifies this, spine
      ensures Valid() && shuttingDown == old(shuttingDown)
      ensures rc == if |old(Contents())| < cap then 0 else -1
      ensures Contents() == if rc == 0 then old(Contents()) + [work] else old(Contents())
      ensures forall j :: j in spine ==> j in old(spine) || fresh(j)
    {
      var job := new Job(work);
      if size >= cap {
        return -1;
      }
      if tail != null {
        tail.next := job;
      } else {
        head := job;
      }
      tail := job;
      size := size + 1;
      spine := spine + [job];
      return 0;
    }

    /** The locked part of worker_main: wait, leave, or unlink the head. */
    method Look() returns (turn: Turn<T>)
      requires Valid()
      modifies this
      ensures Valid() && shuttingDown == old(shuttingDown)
      ensures match turn
              case Wait => old(Contents()) == [] && !shuttingDown && Contents() == []
              case Leave => old(Contents()) == [] && shuttingDown && Contents() == []
              case Run(work) => [work] + Contents() == old(Contents())
      ensures forall j :: j in spine ==> j in old(spine)
    {
      if !shuttingDown && size == 0 {
        return Wait;
      }
      if shuttingDown && size == 0 {
        return Leave;
      }
      var job := head;
      head := job.next;
      if head == null {
        tail := null;
      }
      size := size - 1;
      spine := spine[1..];
      return Run(job.work);
    }

    /** The locked part of threadpool_destroy. */
    method BeginShutdown()
      requires Valid()
      modifies this`shuttingDown
      ensures Valid() && shuttingDown && Contents() == old(Contents())
    {
      shuttingDown := true;
    }
  }
}

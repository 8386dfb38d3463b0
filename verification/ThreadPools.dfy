/** Slot accounting of the task pool (common/thread_pool.cpp). */
module ThreadPools {

  /** Asking for a slot is refused when this many tasks are running or about to. */
  predicate Refused(threadNum: int, taskNum: int) {
    taskNum >= threadNum
  }

  /** The count after `IsFull`: test and reserve in one step. */
  function Asked(threadNum: int, taskNum: int): int {
    if Refused(threadNum, taskNum) then taskNum else taskNum + 1
  }

  /** The count after `TaskEnd`, which does not look. */
  function Returned(taskNum: int): int {
    taskNum - 1
  }

  /** Between 0 and the limit; a pool without threads never counts any task. */
  predicate InBounds(threadNum: int, taskNum: int) {
    0 <= taskNum && (taskNum <= threadNum || taskNum == 0)
  }

  /** Asking keeps the bounds, and returning does exactly when a slot was held. */
  lemma BoundsKept(threadNum: int, taskNum: int)
    requires InBounds(threadNum, taskNum)
    ensures InBounds(threadNum, Asked(threadNum, taskNum))
    ensures InBounds(threadNum, Returned(taskNum)) <==> taskNum > 0
  {
  }

  class ThreadPool {
    const threadNum: int
    var taskNum: int

    constructor (threadsLimit: int)
      ensures threadNum == threadsLimit && taskNum == 0 && InBounds(threadNum, taskNum)
    {
      threadNum, taskNum := threadsLimit, 0;
    }

    /** The answer is "not full" exactly when a slot was free, and then it is taken. */
    method IsFull() returns (full: bool)
      modifies this
      ensures full == Refused(threadNum, old(taskNum)) && taskNum == Asked(threadNum, old(taskNum))
      ensures !full <==> old(taskNum) < threadNum
      ensures taskNum == if full then old(taskNum) else old(taskNum) + 1
      ensures old(InBounds(threadNum, taskNum)) ==> InBounds(threadNum, taskNum)
    {
      if taskNum < threadNum {
        taskNum := taskNum + 1;
        full := false;
      } else {
        full := true;
      }
    }

    method TaskEnd()
      modifies this
      ensures taskNum == Returned(old(taskNum)) == old(taskNum) - 1
      ensures old(InBounds(threadNum, taskNum)) ==> (InBounds(threadNum, taskNum) <==> old(taskNum) > 0)
    {
      taskNum := taskNum - 1;
    }
  }
}

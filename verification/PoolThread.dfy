/** The slot of a worker: the lock regions of PoolThread.cpp. */
module PoolThreads {
  import opened Wrappers
  import opened TaskPools

  datatype Slot = Slot(idle: bool, task: Option<Task>)

  function CheckedOut(t: Task): Slot {
    Slot(false, Some(t))
  }

  const FREE := Slot(true, None)

  class PoolThread {
    var idle: bool
    var task: Option<Task>

    function Value(): Slot
      reads this
    {
      Slot(idle, task)
    }

    constructor ()
      ensures Value() == FREE
    {
      idle, task := true, None;
    }

    /** Waking the thread up has no effect on the slot. */
    method Checkout(t: Task)
      modifies this
      ensures Value() == CheckedOut(t)
    {
      idle := false;
      task := Some(t);
    }

    method Release()
      modifies this
      ensures Value() == FREE
    {
      task := None;
      idle := true;
    }

    method IsIdle() returns (r: bool)
      ensures r == Value().idle
    {
      r := idle;
    }

    method GetTask() returns (t: Option<Task>)
      ensures t == Value().task
    {
      t := task;
    }
  }
}
